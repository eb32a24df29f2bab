# A model of Laguna

Laguna is a key-value store with a segmented write-ahead log, an index from LSN to file and offset, restore by replay,
and pull-based replication. This project models the path a write takes (command, row, bytes, segment file, index,
suffix read, reply, slave) and proves that every layer agrees with one flat log of rows and the map its replay leaves.

| file | what it holds |
|---|---|
| `ByteCodec.dfy`, `WalRecord.dfy` | integers and rows as bytes, `Marshal` and `Unmarshal` |
| `LogStream.dfy` | the chunked reader against the greedy parse of all its bytes |
| `Directory.dfy` | listings, binary search over names, names made from a clock |
| `Segments.dfy` | the directory at row level: growth, index entries, row-by-row placement, size bounds |
| `SegmentManager.dfy` | the splitting writer and the published index, proved against `Segments.dfy` |
| `LogReader.dfy` | suffix read, index rebuild, whole-log restore |
| `IndexArray.dfy` | the sorted-array index against a map |
| `Replay.dfy`, `InMemory.dfy` | the meaning of a log, and the sharded store as one map |
| `WalWorker.dfy` | writers, queue, buffer and answers as a step machine: conservation, one answer each, log order |
| `Durability.dfy` | what an OK is worth, which sends are safe, which rows are never answered, what a refused row does |
| `Wal.dfy` | the object that takes the machine's steps over the segment files |
| `Protocol.dfy`, `Master.dfy`, `SlaveNode.dfy`, `Replication.dfy` | framing, the two sides, and the machine that interleaves them |
| `Query.dfy` | parsed commands |
| `Commands.dfy` | any number of commands over the WAL machine and the store: log, wait, apply, time out, crash |
| `KeyOrder.dfy` | when the store ends as the replay of the log: writes to one key that overlap, and those that do not |
| `Operations.dfy` | one command after the other, with what the worker does meanwhile |
| `Database.dfy` | the node itself over WAL, segment files and store: execution, crash and restore |

## Main results

- **Replication safety, over every run** (`Replication.SlaveAgreesWithMaster`, `Replication.FinishedPollIsAPrefix`): files that
  grow and rotate, index batches published late and in any order, files read while they grow, polls that fail at any
  point, rows applied one by one, a slave that restarts from LSN 0 with or without its own log, a master that restarts and
  rebuilds its index. The invariant is
  `Replay.Between`: each key of the slave holds its value of some moment between two positions of the master's log.
  `Replication.CatchUp` is the progress half.
- **Suffix read under growth** (`LogReader.SuffixRead`): what a poll reads is a contiguous run of the log, from the indexed row
  to at least the end of the log at listing time, with the last listed file seen as any byte prefix.
- **The splitter refines row-by-row placement** (`SegmentManager.Manager.Write`), so rows are conserved, whole rows stay
  in one file, and the size bounds follow (`Segments.WritesFromEmpty`), across crashes too (`Database.Operate`).
- **The chunked reader is the greedy parse** (`LogStream.Read`), and the greedy parse is the only way to cut bytes into rows
  (`LogStream.ParseUnique`), for whole, torn and arbitrary input.
- **When OK means durable** (`Durability.SendIsSafeExactlyWhen`, `Durability.WaitingIsEnough`, `Wal.RunWorker`): exactly which
  sends no continuation can answer falsely, a discipline callers can keep by themselves, and the same down to the files.
- **When the store is the replay of the log** (`KeyOrder.DrawIsSafeExactlyWhen`, `KeyOrder.OnePerKeyAgrees`): with any number of
  concurrent writers, exactly which draws can never lead to a key that is logged and applied and wrong, and the
  discipline clients can keep: no two writes to one key at once.
- **Durability across restarts** (`Operations.DurableAcrossRestarts`, `Database.Operate`): if every write is answered before its
  deadline the log holds exactly the accepted writes and the store is their replay, across crashes, on the objects and
  their bytes. With a timeout, the refused write can be kept and the next accepted one lost (`Operations.AcceptedAndLost`).

## Where the code does less than one would like

- The argument count of a row is cut to 16 bits: the codec round trip holds exactly up to 65535 arguments
  (`WalRecord.DecodeEncode`, `WalRecord.CountOverflowLosesArguments`).
- The length of a reply goes through a signed 32-bit integer: framing round-trips exactly below 2^31 bytes
  (`Protocol.FramingRoundTrip`, `Protocol.OversizedReplies`).
- `flush` answers every future registered by then. A writer that sends and registers between the write and the answers is
  told OK with its row still queued, even if at most one row is ever unlogged (`Durability.OkWithoutDurability`). The exact
  condition at the time of the send is `Durability.SendIsSafeExactlyWhen`. Over the segment files callers meet it by
  sending only after every earlier answer and never after a cancel (`Durability.WaitingIsEnough`). After a cancel even a
  lone writer can lose its row (`Durability.CancelLosesARow`). Over a writer that may fail and then succeed, answers are
  not enough (`Durability.WaitingIsNotEnough`) and OKs are (`Durability.PatienceIsSafe`).
- A future is registered after its row is sent, so the flush can be over by then: the row is logged and nobody is told
  (`Durability.LoggedAndNotAnswered`, `Durability.NeverAnswered`); exactly when it is told is
  `Durability.AnsweredByItsFlushExactlyWhen`. The command then times out, its row is not applied, and it comes back after
  the next restart (`Commands.RefusedWriteComesBack`).
- Rows told OK by one flush are applied in any order, so the store can differ from the replay of the log
  (`Commands.StoreCanDisagreeWithLog`). A draw can lead there exactly when another write to its key is under way that leaves
  another value (`KeyOrder.DrawIsSafeExactlyWhen`); clients who wait for one write to a key to be applied before the next
  get the replay of the log (`KeyOrder.OnePerKeyAgrees`).
- After a timeout the next command of the same client can be told OK by the flush of the one that timed out, and be lost
  in a crash that brings the other back (`Operations.AcceptedAndLost`). Whether a command can be falsely told OK is decided
  when its row is sent (`Operations.WriteIsSafeExactlyWhen`).
- An LSN is drawn before its row is sent, so rows can be logged out of LSN order (`WalWorker.SendsCanOvertake`); they travel in
  order exactly when they are sent in order (`WalWorker.LogInLsnOrder`).
- A row that cannot be encoded stays in the buffer and nothing is logged after it (`Durability.UnencodableRowIsBuffered`,
  `Durability.UnencodableRowStopsTheLog`); buffered rows can be logged exactly when all can be encoded
  (`Durability.BufferIsLoggedExactlyWhen`).
- A writer that stops between its draw and its send leaves a gap in the log (`WalWorker.DrawnButNeverSent`,
  `Replication.SkippedFirstLsn`). A slave that asks for a skipped LSN never moves again without a restart
  (`Replication.GapStallsForEver`); it can move exactly when the next LSN is logged (`Replication.AdvancesExactlyWhen`), and a
  restart helps exactly when LSN 1 is (`Replication.RestartHelpsExactlyWhen`, `Replication.NeverWithoutTheFirst`).
- The array index appends batches without looking: it stays sorted exactly when the caller keeps the order
  (`IndexArray.AppendStaysSortedExactlyWhen`). For new LSNs that is also exactly when every lookup stays right
  (`IndexArray.BatchKeepsLookupsExactlyWhen`, `IndexArray.LateBatchHidesAnEntry`).
- File names sort by time exactly when the earlier reading is at most the leading digits of the later one
  (`Directory.NamesAscendExactlyWhen`), always so while the clock keeps its number of digits, not always when it gains one
  (`Directory.GainedDigit`).

## Assumptions

- New segment files get names above all existing ones (`Segments.FreshNames`; for whole runs the clock's future names are
  given as one ascending list). `Directory.SegmentNamesAscend` derives this from a clock that moves forward without gaining
  a digit.
- The replication machine assumes the master's log holds SET and DEL rows in LSN order from 1 up
  (`Replication.Ordered`), which `Replication.WorkerLogIsOrdered` ties to the order of sends, and replies below 2^31 bytes.
- A row has at most 65535 arguments wherever it has to be read back from a file; writing takes any row.
- No client writes reach a slave (`ReadMe.md` line 183); the code would log them before refusing them.
- File operations succeed: after the first file error the manager keeps its lock, so no run continues past it.
- Values read from the outside are parameters: chunk boundaries, file contents at the time of reading, clock names,
  the point where a context is cancelled. The hash of the sharded store is any function.

## Model

| member | source | states |
|---|---|---|
| `WalRecord.Marshal` | internal/database/wal/wal_record.go:39-76 | fails exactly for a row with an argument above 65535 bytes; otherwise gives the encoding, every byte of it where the layout puts it |
| `WalRecord.Unmarshal` | internal/database/wal/wal_record.go:78-115 | agrees with the decoder on every byte string and never fails with anything but EOF; what it returns is laid out at the front of its input |
| `WalRecord.UnmarshalArgs` | internal/database/wal/wal_record.go:97-111 | the argument loop reads exactly what the recursive decoder reads from the cursor on |
| `WalRecord.LayoutIsEncode` | internal/database/wal/wal_record.go:37-76 | byte by byte, for every row: eight bytes of LSN and two of argument count with the most significant first, the method between them, then each argument as two bytes of length and its contents; the encoding is the one byte string with this layout |
| `WalRecord.DecodesExactlyWhen` | internal/database/wal/wal_record.go:78-115 | a row of a given length is decoded if and only if it is laid out at the front of the input |
| `WalRecord.EncodingOfOneRow` | internal/database/wal/wal_record.go:37-38 | the documented byte layout, on one row |
| `WalRecord.DecodeCounted` | internal/database/wal/wal_record.go:39-115 | with any trailing bytes, whatever `Marshal` accepts decodes to what the 16-bit count keeps of it, which is the row itself exactly up to 65535 arguments |
| `WalRecord.DecodeEncode` | internal/database/wal/wal_record.go:39-115 | with any trailing bytes, an encoded row decodes to itself and its exact length if and only if it has at most 65535 arguments |
| `WalRecord.CountOverflowLosesArguments` | internal/database/wal/wal_record.go:55-58 | every accepted row above 65535 arguments decodes to its first n modulo 65536 and leaves the bytes of the others behind |
| `WalRecord.EncodeDecode` | internal/database/wal/wal_record.go:39-115 | whatever decodes fits, and re-encodes to exactly the bytes consumed |
| `WalRecord.DecodeIsStable` | internal/database/wal/wal_record.go:78-115 | bytes that arrive later do not change a row that already decodes |
| `WalRecord.TornRowDoesNotDecode` | internal/database/wal/wal_record.go:78-115 | no proper prefix of an encoding decodes |
| `WalRecord.EncodeIsPrefixFree` | internal/database/wal/wal_record.go:39-76 | equal concatenations start with equal rows |
| `LogStream.Read` | internal/database/logs/log_reader.go:146-208 | for every way of cutting the bytes into reads, the rows are those of the greedy parse of all of them; succeeds exactly when the reader reaches its end |
| `LogStream.TakeRows` | internal/database/logs/log_reader.go:155-177 | the inner loop takes the greedy parse off the buffer and stops where no row decodes; the skip branch is never taken |
| `LogStream.ReadBytes` | internal/database/logs/log_reader.go:124-126 | reading a buffer in 4096-byte chunks gives its greedy parse |
| `LogStream.ParseSound` | internal/database/logs/log_reader.go:157-177 | the parsed rows encode to exactly the bytes used and nothing decodes after them, so the final pass adds no row |
| `LogStream.ParseEncoded` | internal/database/logs/log_reader.go:146-208 | encoded rows come out first, then whatever the following bytes hold |
| `LogStream.ParseUnique` | internal/database/logs/log_reader.go:146-208 | rows followed by bytes that start no row parse to exactly those rows |
| `LogStream.ParseInTwo` | internal/database/logs/log_reader.go:154-177 | parsing a first part and keeping its leftover for the second equals parsing both at once |
| `LogStream.ReadsBackExactlyWhen` | internal/database/logs/log_reader.go:146-208 | a log reads back as what was written if and only if every row has at most 65535 arguments of at most 65535 bytes |
| `LogStream.EncodeAllInjective` | internal/database/wal/wal_record.go:39-115 | a concatenation of encodings determines its rows |
| `LogStream.ParseTornTail` | internal/database/logs/log_reader.go:189-205 | complete rows followed by any proper prefix of another parse to the complete rows |
| `LogStream.ParsePrefix` | internal/database/logs/log_reader.go:146-208 | any byte prefix of a log parses to the longest row prefix that fits in it |
| `Directory.BinarySearch` | utils/fs/dir.go:87-102 | finds the target in a sorted listing, -1 exactly when it is absent |
| `Directory.ReadDirsFrom` | utils/fs/dir.go:65-85 | the listing from the place of the target on, all of it without a target, nothing when it is absent |
| `Directory.NamesAscendExactlyWhen` | internal/segment/segment.go:104-113 | a later clock reading gives a name that sorts later if and only if the earlier reading is at most the leading digits of the later one, as many as it has itself |
| `Directory.SegmentNamesAscend` | internal/segment/segment.go:104-113 | so names sort by time while the clock keeps its number of digits |
| `Directory.NameOfAReading` | internal/segment/segment.go:105-106 | a file is named by the decimal digits of the clock followed by ".bin" |
| `Directory.GainedDigit` | internal/segment/segment.go:104-113 | when the clock gains a digit either can happen: 10 lists before 9, and before 200 |
| `SegmentManager.FileSegment.constructor` | internal/segment/segment.go:23-42 | opens the last file at its full size, or creates one |
| `SegmentManager.FileSegment.Rotate` | internal/segment/segment.go:44-58 | adds an empty file at the end and starts at size 0 |
| `SegmentManager.FileSegment.Write` | internal/segment/segment.go:60-75 | appends to the last file only, and the recorded size stays its length |
| `SegmentManager.OpenEmpty` | internal/database/initialization.go:49-58 | a manager over an empty directory, with the limit given, satisfies the invariant every later operation keeps and the size bounds |
| `SegmentManager.Manager.Write` | internal/segment/segment_manager.go:32-39 | for any rows: they land exactly where row-by-row placement puts them and their entries are handed over for publication, or one of them cannot be encoded and nothing changes; the size bounds are kept |
| `SegmentManager.Manager.CreateBatch` | internal/segment/segment_manager.go:147-160 | succeeds exactly when every row can be encoded, and then holds every encoding |
| `SegmentManager.Manager.ProcessBatches` | internal/segment/segment_manager.go:44-95 | the whole-batch test and the splitting loop both give the row-by-row placement |
| `SegmentManager.Manager.SplitBatches` | internal/segment/segment_manager.go:60-95 | rows waiting between flushes and rotations end up where row-by-row placement puts them |
| `SegmentManager.Manager.WriteBatch` | internal/segment/segment_manager.go:97-117 | one append to the open file, with an entry for each row at its offset left pending |
| `SegmentManager.Manager.Flatten` | internal/segment/segment_manager.go:122-129 | the concatenation of the encodings |
| `SegmentManager.Manager.Publish` | internal/segment/segment_manager.go:114-120 | any pending batch may be installed next, and the index still agrees with the files |
| `SegmentManager.Manager.AddBatchIndex` | internal/segment/index.go:46-52 | entry by entry, in any order, the batch overrides the map |
| `SegmentManager.Manager.GetIndex` | internal/segment/segment_manager.go:40-42 | at the file and offset found a row with that LSN decodes; an LSN not found is not logged, or its batch is still to be published |
| `SegmentManager.PlaceTogether` | internal/segment/segment_manager.go:50-58 | a batch that fits as a whole stays in the open file under row-by-row placement too |
| `SegmentManager.PlaceOneMore` | internal/segment/segment_manager.go:63-86 | one turn of the splitting loop is one step of row-by-row placement |
| `Segments.PlaceConserves` | internal/segment/segment_manager.go:44-95 | placement appends exactly the given rows, in order, to the flat log; only the last file grows and new files come after it; a log that could be read back still can if and only if the new rows fit |
| `Segments.PlaceUses` | internal/segment/segment_manager.go:63-86 | the names a write leaves unused are still fresh after it |
| `Segments.PlaceStaysGreedy` | internal/segment/segment_manager.go:63-86 | every file is within the limit or holds one oversized row, and no file was started while its first row still fitted the one before |
| `Segments.SegmentCountBound` | internal/segment/segment_manager.go:44-95 | k >= 2 files hold more than floor(k/2) times the limit |
| `Segments.WritesFromEmpty` | internal/segment/segment_manager.go:32-129 | after any error-free writes from an empty directory, the files concatenated are the encodings of all rows written, in order, each once, with the size bounds |
| `Segments.EntryDecodes` | internal/segment/segment_manager.go:101-105 | at the file and offset of an entry the row pointed at decodes, and the rest of the file parses to the rows from it on |
| `Segments.IndexedBytes` | internal/segment/segment_manager.go:97-120 | the bytes an index entry names decode to a row with its LSN |
| `Segments.EntriesSound` | internal/segment/segment_manager.go:101-105 | the entries of a write are one per LSN, each at the offset of a row with that LSN |
| `Segments.EntriesFindAppended` | internal/segment/segment_manager.go:97-117 | entries computed before the write find the rows after it |
| `Segments.PublishAgrees` | internal/segment/segment_manager.go:114-120 | publishing batches in any order, LSNs repeated or not, keeps every entry right and loses no LSN |
| `Segments.AllPublished` | internal/segment/segment_manager.go:118-120 | once nothing is pending every logged LSN has an entry, and with distinct LSNs the index is the one a restart rebuilds |
| `Segments.RebuiltSound` | internal/database/logs/log_reader.go:86-103 | the rebuilt index has exactly the logged LSNs and finds each |
| `Segments.RebuiltKeepsLast` | internal/database/logs/log_reader.go:210-225 | of several rows with one LSN the rebuilt index points at the last |
| `Segments.RebuiltIsTheIndex` | internal/database/logs/log_reader.go:210-225 | with distinct LSNs a right and complete index equals the rebuilt one |
| `Segments.RebuiltAgrees` | internal/database/logs/log_reader.go:86-103 | after a restart, with nothing pending, the index agrees with the files |
| `LogReader.ReadFrom` | internal/database/logs/log_reader.go:32-68 | the first listed file from the offset and the others whole, parsed in order; fails exactly when a listed file is missing |
| `LogReader.SuffixRead` | internal/database/logs/log_reader.go:32-68 | read while the log grows, the result is a contiguous run of the log from the indexed row to at least its end at listing time |
| `LogReader.LastFileRows` | internal/database/logs/log_reader.go:45-65 | the last listed file, seen as a byte prefix, yields at least the rows it held when listed |
| `LogReader.RestoreIndex` | internal/database/logs/log_reader.go:210-225 | re-encoding row by row gives the entries of a write that starts at offset 0 |
| `LogReader.RestoredOffsets` | internal/database/logs/log_reader.go:210-225 | for any file contents, those offsets are where the reader found each row |
| `LogReader.RestoreSystem` | internal/database/logs/log_reader.go:70-113 | every file's parse, in order, and the rebuilt index |
| `LogReader.SegsOfRendered` | internal/database/logs/log_reader.go:86-103 | files written row by row are read back as those rows if and only if all of them fit |
| `IndexArray.IndexManagerArray.Add` | internal/segment/index.go:110-133 | append, overwrite or shifted insert is always the map update, and the array stays sorted |
| `IndexArray.IndexManagerArray.AddBatch` | internal/segment/index.go:135-145 | the map union; sorted afterwards exactly when the batch increases from above the last entry |
| `IndexArray.IndexManagerArray.GetIndex` | internal/segment/index.go:147-156 | answers like the map while the array is sorted; over distinct LSNs in any other order some lookup differs from the map |
| `IndexArray.BinarySearchIndex` | internal/segment/index.go:158-169 | halves the array as the recursive search does; when it is sorted, finds the first index whose LSN is not below the one sought |
| `IndexArray.LateBatchHidesAnEntry` | internal/segment/index.go:135-156 | after a batch that comes late the array is unsorted and the search misses an entry the map has |
| `IndexArray.AnswersLikeMapExactlyWhen` | internal/segment/index.go:147-169 | over distinct LSNs every lookup agrees with the map if and only if the array is sorted |
| `IndexArray.BatchKeepsLookupsExactlyWhen` | internal/segment/index.go:135-156 | for new distinct LSNs a batch keeps every lookup right if and only if it increases from above the last entry |
| `IndexArray.AppendStaysSortedExactlyWhen` | internal/segment/index.go:135-145 | appending keeps the array sorted if and only if the batch is increasing and above the last entry |
| `IndexArray.InsertIsUpdate` | internal/segment/index.go:127-131 | inserting at the search position is the map update |
| `Replay.OverlappingReplay` | internal/database/replication/slave.go:167-187 | replaying a suffix again over a state already past its start ends where one replay of the whole log does |
| `Replay.ApplyNext` | internal/database/replication/slave.go:167-187 | applying the row at the lower bound raises the bound for every key |
| `Replay.AgreesWhereUntouched` | internal/database/replication/slave.go:167-187 | a store between two positions equals the earlier one on every key not written in between |
| `Replay.SameStoreExactlyWhen` | internal/database/database.go:97-120 | two sequences of rows leave the same store if and only if, key by key, their last rows have the same effect |
| `Replay.MethodIds` | internal/query/query.go:21-25 | by the byte in the row: 0 sets its first argument to its second, 2 deletes its first, 1 changes nothing and no slave takes it, any other is unknown |
| `Replay.SetThenDelete` | internal/database/database.go:97-120 | the log of a SET, a GET and a DEL of one key replays to nothing, and without the DEL to the value |
| `InMemory.Engine.constructor` | internal/database/storage/engine/inmemory/engine.go:19-28 | an empty map over the given number of shards, 100 when it is not positive |
| `InMemory.Engine.Set` | internal/database/storage/engine/inmemory/inmenory.go:30-40 | one map update, for any hash and shard count |
| `InMemory.Engine.Get` | internal/database/storage/engine/inmemory/inmenory.go:42-52 | one map lookup |
| `InMemory.Engine.Del` | internal/database/storage/engine/inmemory/inmenory.go:54-64 | one map removal |
| `InMemory.Engine.Exec` | internal/database/replication/slave.go:167-187 | a row with method byte 0 sets its first argument to its second, one with 2 removes its first; an unknown command is an error, a missing argument a panic, and neither changes anything |
| `WalWorker.MaxLsnCovers` | internal/database/wal/wal.go:152-161 | the restored generator is at or above every logged LSN, so none is drawn again |
| `WalWorker.SentIsLogBufferQueue` | internal/database/wal/wal.go:168-244 | in every run, over an empty or a restored log, written rows then buffer then queue are the rows sent, in order, each once |
| `WalWorker.AnswersNeverBlock` | internal/database/wal/wal.go:232-243 | in every run, a future about to be answered is listed once, open, empty and unanswered |
| `WalWorker.AnswerTakenOnce` | utils/concurrency/future_resp.go:18-47 | in every run each writer takes at most one answer |
| `WalWorker.PutAllOnce` | internal/database/wal/wal.go:240-243 | the answering loop puts to each listed future once and touches no other |
| `WalWorker.BufferStaysBelowBatch` | internal/database/wal/wal.go:206-211 | without a failed flush the buffer is below the batch size whenever the worker waits |
| `WalWorker.LogInLsnOrder` | internal/database/wal/wal.go:108-129 | rows travel in LSN order if and only if they are sent in LSN order, and then they are logged in LSN order |
| `WalWorker.SendsCanOvertake` | internal/database/wal/wal.go:120-122 | two writers, of any rows, can log LSN 2 before LSN 1 |
| `WalWorker.DrawnButNeverSent` | internal/database/wal/wal.go:120-122 | sends in order, a writer that stops before its send, and a log that begins with LSN 2; after a crash LSN 1 is never drawn again |
| `Durability.SendIsSafeExactlyWhen` | internal/database/wal/wal.go:108-244 | in every reachable state, over the segment files or over any other writer, a row sent now is never falsely told OK in any continuation if and only if nothing is ahead of it at the select, or what is ahead can never be written, or the last drain is still running, or no OK can follow |
| `Durability.OkIsDurable` | internal/database/wal/wal.go:216-244 | in every run whose sends are all safe in that sense, everyone told OK is in the log |
| `Durability.PatienceIsSafe` | internal/database/wal/wal.go:23-25 | whoever writes: if every send comes after all earlier rows were told OK and before any cancel, everyone told OK is in the log |
| `Durability.WaitingIsEnough` | internal/database/wal/wal.go:108-244 | over the segment files it is enough that every send comes after all earlier rows were answered, OK or not, and before any cancel |
| `Durability.WaitingIsNotEnough` | internal/database/wal/wal.go:23-25 | over another writer, one that can fail and then succeed, it is not; the run given is not one of the segment files |
| `Durability.OkWithoutDurability` | internal/database/wal/wal.go:216-244 | over the segment files, a run with at most one unlogged row at any time in which a writer is told OK and its row is not in the log |
| `Durability.CancelLosesARow` | internal/database/wal/wal.go:190-200 | over the segment files, a run in which every send waits for all earlier OKs, behind a cancel, and a writer is falsely told OK by a worker that then stops |
| `Durability.StoppedIsFinal` | internal/database/wal/wal.go:190-200 | a stopped worker never logs or answers anything again, so that row is lost |
| `Durability.LoggedAndNotAnswered` | internal/database/wal/wal.go:122-126 | one writer alone, whose flush is over before its future is registered: its row is in the log and it has no answer |
| `Durability.NeverAnswered` | internal/database/wal/wal.go:202-211 | from there no run without another draw or a cancel ever answers it |
| `Durability.AnsweredByItsFlushExactlyWhen` | internal/database/wal/wal.go:216-244 | a row is answered by the flush that logs it, and then OK, if and only if its future is registered before that flush comes to answer |
| `Durability.UnencodableRowIsBuffered` | internal/database/wal/wal.go:206-211 | any command with an argument above 65535 bytes reaches the buffer |
| `Durability.UnencodableRowStopsTheLog` | internal/database/wal/wal.go:222-230 | once a row that cannot be encoded is buffered, no run logs anything more |
| `Durability.BufferIsLoggedExactlyWhen` | internal/database/wal/wal.go:222-230 | some run logs the rows buffered at the select if and only if all of them can be encoded |
| `Durability.LoggedRowsFit` | internal/database/wal/wal.go:222-230 | with at most 65535 arguments a row, everything the segment manager lets into the log reads back |
| `Durability.LoggedRowsEncodable` | internal/database/wal/wal.go:222-230 | everything the segment manager lets into the log could be encoded |
| `Wal.WAL.constructor` | internal/database/wal/wal.go:52-95 | over restored files the worker goes on from the largest LSN found there, with a batch size of 100 when none is set |
| `Wal.WAL.FlushWrite` | internal/database/wal/wal.go:222-230 | the segment files take the whole buffer, or none of it exactly when a row of it cannot be encoded; they hold the log of the machine either way |
| `Wal.WAL.FlushAnswer` | internal/database/wal/wal.go:232-244 | every registered future is answered and closed, with no put that could block or panic |
| `Wal.WAL.AnswerAll` | internal/database/wal/wal.go:240-243 | the answering loop has the effect the machine gives it |
| `Wal.RunWorker` | internal/database/wal/wal.go:52-244 | for every schedule of writers, worker and cancel the object takes exactly the steps that can happen, in order, and follows the machine, so that every run of the machine over the segment files is one of the object; its flushes succeed exactly when their rows can be encoded, and if callers wait for every answer each row told OK decodes from the segment files, as what its encoding keeps of it; the size bounds are kept |
| `Wal.ToldOkIsOnDisk` | internal/database/wal/wal.go:216-244 | a row truthfully told OK decodes at some offset of some file, as itself up to 65535 arguments |
| `Protocol.FramingRoundTrip` | internal/database/replication/protocol.go:90-167 | a framed response, followed by any bytes, is read back as itself, data as data and error as error, if and only if its payload is below 2^31 bytes |
| `Protocol.OversizedReplies` | internal/database/replication/protocol.go:109-118 | 2^31 bytes are announced as a negative length, 2^32 bytes as an empty reply |
| `Protocol.CutMessageIsRefused` | internal/database/replication/protocol.go:133-167 | a message cut anywhere is refused |
| `Protocol.EndToEnd` | internal/database/replication/protocol.go:24-57 | rows flattened and framed by the master are the rows the slave parses |
| `Protocol.WriteRows` | internal/database/replication/protocol.go:24-57 | flattens and frames the rows, and fails exactly when one cannot be encoded |
| `Protocol.FramedIsWriteMessage` | internal/database/replication/protocol.go:90-131 | byte by byte, for every response: the flag, four bytes of length with the most significant first, the payload; the message is the one byte string of that form |
| `Protocol.ReadsExactlyWhen` | internal/database/replication/protocol.go:133-167 | which bytes are read as which response: the length field says its size, below 2^31, the payload follows, and flag 1 and no other means an error |
| `Protocol.RequestLayout` | internal/database/replication/protocol.go:59-78 | a request is the LSN in eight bytes with the least significant first, and is read as exactly that LSN |
| `Protocol.MessagesOfOneByte` | internal/database/replication/protocol.go:59-131 | the byte layouts of a data reply, an error reply and a request on one example each, and the two error texts |
| `Protocol.RequestRoundTrip` | internal/database/replication/protocol.go:65-78 | a request is read back as its LSN |
| `Master.Handle` | internal/database/replication/master.go:55-120 | data exactly when the LSN is indexed and its files yield rows, and then exactly those rows; an error reply otherwise |
| `SlaveNode.Slave.constructor` | internal/database/replication/slave.go:38-69 | a new slave starts from LSN 0 |
| `SlaveNode.Slave.ExecStorage` | internal/database/replication/slave.go:167-187 | applies a prefix of the rows, all of them exactly when it reports success; otherwise says where it stopped and why: cancelled, at the row where that happens and never past it, unknown command, or a panic on a missing argument |
| `SlaveNode.Slave.ProcessRows` | internal/database/replication/slave.go:138-165 | a context already cancelled changes nothing; otherwise log, then store, then LSN: exactly how much each has taken however the call ends and why it ended, nothing applied unless all were logged, and the LSN moved only when every row is applied |
| `SlaveNode.Slave.GetUpdates` | internal/database/replication/slave.go:97-136 | the same for the rows of any reply; errors and replies without a whole row change nothing |
| `Replication.StepInv` | internal/database/replication/slave.go:97-187 | every step of master, index, poll and slave keeps the invariant |
| `Replication.ReplyInv` | internal/database/replication/master.go:93-115 | the reply to a located LSN is the master's log from just after the slave's last LSN, to at least its end at listing time |
| `Replication.NextIsAtApplied` | internal/database/replication/slave.go:103-103 | in a log in LSN order only the row after the last finished one carries the LSN asked for |
| `Replication.SlaveAgreesWithMaster` | internal/database/replication/slave.go:97-187 | in every run the slave's last LSN cuts the master's log at a prefix, and on every key no later row touches the slave holds what that prefix leaves |
| `Replication.FinishedPollIsAPrefix` | internal/database/replication/slave.go:138-165 | after each successful poll the slave is exactly the replay of a prefix of the master's log that reaches at least the log's end at listing time; its own log replays to the same store, so that a restart keeps the store if there is such a log and empties it if not |
| `Replication.IndexAgreesInEveryRun` | internal/segment/segment_manager.go:97-120 | in every run each published entry names bytes that decode to its LSN, and with nothing pending the index is complete and equal to the rebuilt one |
| `Replication.WorkerLogIsOrdered` | internal/database/wal/wal.go:120-122 | sends in LSN order give the order assumed of the master's log, from an empty log or a restored one |
| `Replication.WriteIsAGrowth` | internal/segment/segment_manager.go:32-120 | an error-free write of the segment manager is a growth step of the machine |
| `Replication.NoGap` | internal/database/replication/master.go:74-91 | with LSNs 1..n logged and all published, a lagging slave's next LSN is in the index |
| `Replication.CatchUp` | internal/database/replication/slave.go:97-136 | from every state of the invariant in which the next LSN is indexed, one undisturbed poll leaves exactly the replay of the whole master log |
| `Replication.AdvancesExactlyWhen` | internal/database/replication/slave.go:97-136 | over the log as it is, some run moves the slave's last LSN if and only if the next LSN is logged |
| `Replication.GapStallsForEver` | internal/database/replication/slave.go:97-136 | once the log has gone past the LSN a slave asks for, no run without a restart of the slave changes it |
| `Replication.SkippedFirstLsn` | internal/database/replication/slave.go:103-103 | a log whose first row skips LSN 1 brings every initial state there |
| `Replication.RestartHelpsExactlyWhen` | internal/database/replication/slave.go:38-53 | a restarted slave can move, past any later gap, if and only if LSN 1 is logged |
| `Replication.NeverWithoutTheFirst` | internal/database/replication/slave.go:97-136 | without LSN 1 no run, restarts included, moves the slave |
| `Replication.HandleIsThePoll` | internal/database/replication/master.go:55-120 | what the handler answers, with growth between its lookup, its listing and its reads, is the reply of the machine |
| `Replication.GetUpdatesIsARun` | internal/database/replication/slave.go:97-187 | every outcome of the slave's update, finished or cut short anywhere, is a run of the machine |
| `Replication.MasterRestartInv` | internal/database/logs/log_reader.go:70-113 | a clean crash of the master, which rebuilds its index and loses the poll it was serving unless its reply is on its way, keeps the invariant |
| `Replication.FirstRowReachesTheSlave` | internal/database/replication/slave.go:97-187 | from every initial state there is a run in which a row logged on the master is applied on the slave |
| `Query.ParsedCommandsReplay` | internal/query/builder.go:14-77 | a parsed command other than GET gives a row that replays: SET with exactly two arguments, DEL with at least one; no word is lost |
| `Query.WordDecidesMethod` | internal/query/query.go:27-31 | SET parses to method 0, GET to 1, DEL to 2, and nothing else to any of them |
| `Query.ParseErrors` | internal/query/builder.go:34-54 | exactly which word lists are refused, with which error; an argument can be missing only for SET |
| `Query.JoinConcat` | internal/query/builder.go:63-69 | the words of a value are kept in order with one blank between any two |
| `Commands.StoreIsWhatWasApplied` | internal/database/database.go:52-95 | in every run of any number of writers, timeouts and crashes: the rows sent are log, buffer and queue, in order and each once; the store is the replay of the rows applied, each of them sent, applied once, and told OK unless it is in the log; a crash leaves the replay of the log |
| `Commands.RefusedWriteComesBack` | internal/database/database.go:72-95 | a write refused by its timeout is in the log and not in the store, and after the next crash it is in the store |
| `Commands.StoreCanDisagreeWithLog` | internal/database/database.go:52-65 | two writers told OK by one flush apply in the other order, and the store keeps a value the log has overwritten |
| `KeyOrder.OnePerKeyAgrees` | internal/database/database.go:52-95 | if a write is drawn only when no other write to its key is under way, every key whose rows are all logged and applied holds what the log says, and once that is all of them the store is the replay of the log |
| `KeyOrder.DrawIsSafeExactlyWhen` | internal/database/database.go:52-95 | with a worker that can still write and at most one write to the key under way, no continuation of a draw ends with its key logged, applied and wrong if and only if no other write to the key is under way that leaves another value |
| `KeyOrder.Disagreement` | internal/database/database.go:52-95 | the continuation that does, from every such state |
| `KeyOrder.Drive` | internal/database/wal/wal.go:168-244 | a worker that can still write can be driven until everything sent is logged, and everyone registered is told OK if anything was on its way |
| `Operations.OneWrite` | internal/database/database.go:72-95 | after commands that were all answered, a write that is answered is answered OK, and logged, if and only if nothing unwritable is ahead of it and it can be encoded; one that times out may be in the log |
| `Operations.ClientSees` | internal/database/database.go:97-120 | GET answers the value, or nothing for an absent key, and changes nothing; SET and DEL answer "OK" exactly when they change the store, and then as their method says |
| `Operations.AnswerExactlyWhen` | internal/database/database.go:72-95 | a write blocks exactly when the queue is full as it comes to send; otherwise it is told OK, refused or timed out by what lies in its future when the wait ends |
| `Operations.HappensAsAsked` | internal/database/database.go:52-95 | whatever schedules a command is asked with, if it can happen with them it ends where the operation says and with its answer |
| `Operations.CanBeAnswered` | internal/database/wal/wal.go:206-243 | for every such write there is a schedule of the worker under which it is answered OK |
| `Operations.OpIsARun` | internal/database/database.go:52-95 | every command, answered, timed out or blocked, is a run of the machine of commands |
| `Operations.EveryRunOfOps` | internal/database/database.go:52-157 | what `Commands.StoreIsWhatWasApplied` says holds after every run of commands, timeouts and crashes |
| `Operations.AcceptedAndLost` | internal/database/database.go:72-95 | for any two writes of one client: the first times out, the second is told OK and applied with only the first in the log, and after a crash the store holds the first and not the second |
| `Operations.WriteIsSafeExactlyWhen` | internal/database/wal/wal.go:120-126 | whatever the worker does from its send on, a command told OK has its row in the log if and only if the send is safe |
| `Operations.FirstNodeOk` | internal/database/wal/wal.go:52-95 | a first start over nothing is a node whose commands were all answered |
| `Operations.DurableAcrossRestarts` | internal/database/database.go:52-157 | if every write is answered before its deadline, then after any commands and clean crashes the log holds exactly the writes accepted since the start, in order, with LSNs 1..n, and the store is their replay |
| `Database.Database.Execute` | internal/database/database.go:52-120 | GET answers the value the store holds, or nothing; a write draws, sends, registers, waits while the worker runs, and is applied and answered "OK" only if told OK in time: the command is an operation as above, the one the schedules asked for come to, with its answer and effect; the size bounds are kept |
| `Database.Restore` | internal/database/database.go:36-50 | over any files a process comes up if and only if every row found can be executed, else stops at the first that cannot; it then holds their effect, the largest LSN and the rebuilt index |
| `Database.ReplayRows` | internal/database/database.go:134-152 | rows executed in order until one fails, with the largest LSN kept |
| `Database.ReplayFiles` | internal/database/database.go:122-157 | the stream of files has the effect of the flat log, and fails at its first row that cannot be executed |
| `Database.CrashAndRestore` | internal/database/database.go:36-50 | after any crash the new process is where the files say, with the same size limit and batch size; if every logged row fits, that is the replay of the old log, with a fully published index as it was and an empty buffer, and the size bounds still hold |
| `Database.Operate` | internal/database/database.go:36-157 | every run of commands, worker schedules and crashes on the objects and their files is a run of operations, with its result, and every run of operations is one on the objects; it ends early only before a crash over a log that cannot be read back, which commands of at most 65535 arguments rule out; across the crashes the files together are the log, each within the limit or a single row, and k of them hold more than floor(k/2) times the limit |
| `Database.FirstStart` | internal/database/initialization.go:41-58 | over an empty directory the program comes up as a node from which all this holds, with the limit and the batch size it was given, 100 rows if that is 0 |

## Left out

- File errors, fsync and retries: a run ends at the first file error, because the manager then keeps its lock.
- Rows appended behind a torn tail after a reopen: only the rows before the tear are claimed.
- Error propagation through the response stream of a restore, whose error is set on another copy: only successful streams are modelled.
- The copy-on-write index: sequentially it is the map index; its unlocked load, copy and store are not modelled.
- Splitting a command into words, which the Go library does by Unicode white space: `Query.Parse` starts from the words.
- Clocks: the one-second wait for an answer ends where the given schedule of the worker ends, and a cancelled context is a parameter or an event.
- `Database.Database.Execute`: one client at a time on a master; concurrent clients are the subject of `Commands.dfy`.
- `Operations.OpStep`: a sender that finds the queue full stays blocked in later operations, while in the code its send goes through once there is room; `Commands.dfy` has that send.
- `KeyOrder.DrawIsSafeExactlyWhen`: asks for a worker that is not cancelled and for rows that can be encoded; what a cancel or an unencodable row does is in `Durability.dfy`.
- Partially filled fields of a row whose `Unmarshal` fails: every caller drops the row.
- Listeners, clients, handlers, configuration, logging, transaction identifiers and size parsing: plumbing with no property of interest here.
