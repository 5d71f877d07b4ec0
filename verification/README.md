# rosbag2 in Dafny

A model of the parts of rosbag2 whose correctness is hardest to see from the code, with proofs.
`dafny verify dfyconfig.toml` checks all of it.

**The compressing writer** (`Compression*.dfy`). One producer and any number of compression threads
share a message queue, a file queue, a running flag, a condition variable, the queue mutex and the
recursive storage mutex. `CompressionProtocol` is the transition system: a step is one thread taking a
mutex or running up to its next blocking point, so an execution is any interleaving, with wake-ups
chosen freely and spurious ones allowed. `CompressionThreads`, `CompressionProgress`,
`CompressionMessages` and `CompressionFiles` prove what each step keeps; `CompressionTheorems` draws the
conclusions for whole runs, and `CompressionOutcome` says field by field what is stored, listed and
reported. `CompressionWriter` has the critical sections as methods of a class and
proves that they do what the steps do.

**The two readers** (`Cursor`, `McapStorage`, `SqliteStorage`, `Lockstep`, `TopicFilter`). Both storage
plugins refine one abstract cursor: a log sorted by time and position or its reversal, the accepted
topics, and a cut. The MCAP reader with its lookahead and the SQLite reader with its rebuilt query and
cached row are classes whose methods are proved against that cursor; `Lockstep` runs both. `TopicFilter`
has the filter as MCAP evaluates it and as SQLite renders it into conditions, with the text of the IN
lists and its parser.

**The metadata codec** (`Decimal`, `Yaml`, `QosCodec`, `MetadataCodec`). Versioned encoder and decoder
with fields gated on versions 3 to 9, the self-detecting profile format, and the legacy infinities.

**Aggregation** (`Sums`, `ServiceInfo`, `Reindexer`, `ReindexerOutcome`, `SqliteMetadata`,
`QosAdaptation`). Loops over
mutable maps and counters, each proved against a set-level or sum-level statement.

Results that differ from what the documentation suggests:

- A write call that drops puts the popped front of the queue back at the tail and loses the message of
  its caller, while the loss is reported under the topic of the front (`CompressionWriter.DropRotates`,
  `CompressionWriter.MisreportedLoss`).
- With topics and services listed, but neither actions nor a regular expression, SQLite lets every plain
  topic through (`TopicFilter.AgreementExact`). A list of excluded services or actions without excluded
  topics is a syntax error (`TopicFilter.ExcludedRoundTrip`).
- A SQLite reader whose direction changes without a seek resumes if and only if the filter accepts
  neither the row read last nor its unread neighbour with the next row id and the same time: otherwise
  these come again or come early (`SqliteStorage.FlipExact`). After a seek without a read it loses the
  accepted rows of the time sought, but for one row id (`SqliteStorage.FlipAfterSeek`). So a
  SQLite reader opened in reverse without a seek misses messages at time 0, which the MCAP reader returns
  (`Lockstep.UnsoughtReverse`).
- In MCAP file order a rebuilt iterator resumes exactly if and only if no accepted message before the one
  read last is later, and none behind it is earlier (`McapStorage.FileOrderExact`); with one filter this
  holds throughout exactly when the times of the accepted messages never decrease
  (`McapStorage.FileOrderFiltered`).
- The reindexer compares full paths. In a bag directory whose path begins with digits and an underscore
  all files of a recording tie; in any other they are ordered by the seconds in their names. The counter
  is used in neither, and the opening order is restored if and only if the path does not begin so and the
  seconds increase from file to file (`Reindexer.OrderedBySeconds`, `Reindexer.OpeningOrderExact`).
- Reindexed custom data come from the last file that has any if and only if that file starts later than
  every file before it, or these yield the same (`Reindexer.LatestWins`).
- Metadata with a negative time is written but cannot be read (`MetadataCodec.BagRoundTrip`).

What is assumed of other libraries: the compressor is a total function, and compressing a file appends
its extension. MCAP log-time order sorts by (time, offset), the reverse order is its exact reversal, a
start time is inclusive and an end time exclusive. SQLite's WHERE, ORDER BY, GROUP BY, MIN, MAX and
COUNT mean what they say, and an IN list that is not a list of literals is rejected. A regular
expression is a predicate on names. Dumping and loading YAML are inverse, and no dump is empty. Policy
names and codes, the infinite duration and the saturating comparison of durations are those of the
middleware interface. Keep-all history has depth 0.

## Model

| member | source | states |
|---|---|---|
| `CompressionTheorems.RunInv` | rosbag2_compression/src/rosbag2_compression/sequential_compression_writer.cpp:120-184 | every state of every run, over any interleaving of the producer and any number of threads, satisfies all invariants of the protocol: mutex ownership, message and file bookkeeping, queue limits, wake-ups |
| `CompressionTheorems.MessageConservation` | rosbag2_compression/src/rosbag2_compression/sequential_compression_writer.cpp:415-460 | message mode: at every moment the messages of all write calls are, as a multiset of compressed copies, exactly those discarded, in the hand of a running call, queued, being compressed, and stored; the loss reports are as many as the discarded messages |
| `CompressionTheorems.MessagesAfterClose` | rosbag2_compression/src/rosbag2_compression/sequential_compression_writer.cpp:234-308 | after close the queues are empty, all threads have ended, and the stored messages are those of all calls but the discarded ones; they are all of them if and only if nothing was discarded; one thread then even keeps the order; in file mode the stored sequence is the written one |
| `CompressionTheorems.MessagesAtRest` | rosbag2_compression/src/rosbag2_compression/sequential_compression_writer.cpp:120-158 | whenever the system is at rest between calls, each message written so far is stored or was discarded |
| `CompressionTheorems.QueueLimit` | rosbag2_compression/src/rosbag2_compression/sequential_compression_writer.cpp:427-458 | the queue holds at most queue_size + 1 messages (thread count + 1 when the size is zero); a write call drops at most once, discards the message of the caller, and reports the topic of the front of the queue |
| `CompressionTheorems.FileListAlways` | rosbag2_compression/src/rosbag2_compression/sequential_compression_writer.cpp:139-158 | file mode: at every moment entry i of the list is the i-th opened file under its raw or its compressed name, and no two entries are equal |
| `CompressionTheorems.FileListAfterClose` | rosbag2_compression/src/rosbag2_compression/sequential_compression_writer.cpp:264-308 | file mode, after close: the list is, in opening order, the compressed name of every file with content and the raw name of every empty one |
| `CompressionTheorems.OneCallbackPerSplit` | rosbag2_compression/src/rosbag2_compression/sequential_compression_writer.cpp:157-181 | file mode, after close: the split callbacks name the compressed names of the files closed by splits, each exactly once; for a file with content the announced successor is the next opened file; the last file has one callback without successor |
| `CompressionTheorems.MessageModeFileList` | rosbag2_compression/src/rosbag2_compression/sequential_compression_writer.cpp:376-400 | message mode: the list is the opened files, and the callbacks name each file with its successor in order |
| `CompressionTheorems.MutexesAndWakeUps` | rosbag2_compression/src/rosbag2_compression/sequential_compression_writer.cpp:124-146 | no thread that waits for the storage mutex holds the queue mutex; each mutex has at most one holder; with work queued some worker is awake, as many as there is work up to the thread count; a producer waiting for room finds the queue non-empty |
| `CompressionTheorems.NeverStuck` | rosbag2_compression/src/rosbag2_compression/sequential_compression_writer.cpp:124-259 | no deadlock: in every reachable state some thread can go on, unless no call is running, every thread sleeps or has ended, and both queues are empty |
| `CompressionTheorems.BoundedRun` | rosbag2_compression/src/rosbag2_compression/sequential_compression_writer.cpp:120-184 | without new calls every schedule ends within a number of steps fixed by the state it starts from, plus two per spurious wake-up |
| `CompressionTheorems.CloseCompletes` | rosbag2_compression/src/rosbag2_compression/sequential_compression_writer.cpp:264-308 | every schedule from the start of close is bounded, and one that cannot be continued has joined every thread and closed the bag |
| `CompressionOutcome.StoredAreCopies` | rosbag2_compression/src/rosbag2_compression/sequential_compression_writer.cpp:402-413 | message mode, at every moment: a stored message has topic, receive time and send time of some write call, its data compressed, and sequence number 0 |
| `CompressionOutcome.StoredPerDescription` | rosbag2_compression/src/rosbag2_compression/sequential_compression_writer.cpp:402-460 | message mode, after close: for every topic, receive time, send time and compressed data, as many messages are stored with them as calls wrote and did not discard, so as many as calls wrote when nothing was discarded |
| `CompressionOutcome.StoredCallByCall` | rosbag2_compression/src/rosbag2_compression/sequential_compression_writer.cpp:402-460 | with one thread and nothing discarded, after close the i-th stored message is that of the i-th call, field by field |
| `CompressionOutcome.DropWaitOrPush` | rosbag2_compression/src/rosbag2_compression/sequential_compression_writer.cpp:427-458 | a write call drops exactly when the queue is one above a limit that is set, waits exactly when without a limit it is one above the thread count, and appends its message otherwise |
| `CompressionOutcome.FileListNames` | rosbag2_compression/src/rosbag2_compression/sequential_compression_writer.cpp:348-360 | file mode, at every moment: entry i of the list is the i-th opened file, whose name begins with the counter i, or that name with a dot and the extension |
| `CompressionOutcome.FinalFileNames` | rosbag2_compression/src/rosbag2_compression/sequential_compression_writer.cpp:264-308 | file mode, after close: every file with content is listed with a dot and the extension, every empty one as it was opened |
| `CompressionOutcome.CallbacksAfterClose` | rosbag2_compression/src/rosbag2_compression/sequential_compression_writer.cpp:157-181 | file mode, after close: one callback per opened file; all but the last report a file closed by a split, under its name with a dot and the extension, with the file opened next; every such file is reported; the last callback is that of the last file |
| `CompressionProgress.NoDeadlock` | rosbag2_compression/src/rosbag2_compression/sequential_compression_writer.cpp:239-258 | the invariants of one state alone imply that a thread can move or that the system is at rest |
| `CompressionProgress.StepRank` | rosbag2_compression/src/rosbag2_compression/sequential_compression_writer.cpp:120-184 | every step of a thread makes the rank of the state smaller, a spurious wake-up raises it by at most two |
| `CompressionProgress.BalancedStep` | rosbag2_compression/src/rosbag2_compression/sequential_compression_writer.cpp:124-146 | no wake-up is lost: every step keeps the number of awake workers at least the queued and taken work, up to the thread count |
| `CompressionMessages.MessagesStep` | rosbag2_compression/src/rosbag2_compression/sequential_compression_writer.cpp:120-157 | every step keeps, message by message, the balance of written, discarded, queued, compressed and stored copies |
| `CompressionMessages.BoundedStep` | rosbag2_compression/src/rosbag2_compression/sequential_compression_writer.cpp:427-458 | every step keeps the queue limits |
| `CompressionFiles.FilesStep` | rosbag2_compression/src/rosbag2_compression/sequential_compression_writer.cpp:332-400 | every step keeps each file in exactly one place, each list entry under the right name, and each callback correct |
| `CompressionFiles.FinishRename` | rosbag2_compression/src/rosbag2_compression/sequential_compression_writer.cpp:348-360 | when a worker has compressed a file and looks its raw name up again, it finds the entry of that file and overwrites just that one |
| `CompressionFiles.LookUp` | rosbag2_compression/src/rosbag2_compression/sequential_compression_writer.cpp:168-178 | the entry after the compressed name exists when a worker looks it up |
| `CompressionThreads.LocksStep` | rosbag2_compression/src/rosbag2_compression/sequential_compression_writer.cpp:124-180 | every step keeps the owners of both mutexes and the recursion depth of the storage mutex in accordance with where the threads are |
| `CompressionThreads.PhasesStep` | rosbag2_compression/src/rosbag2_compression/sequential_compression_writer.cpp:205-308 | every step keeps the phases of the mode: no message work in file mode, no file work in message mode, no thread alive after the join |
| `CompressionWriter.SequentialCompressionWriter.constructor` | rosbag2_compression/src/rosbag2_compression/sequential_compression_writer.cpp:205-232 | queues empty, threads running, the first file listed |
| `CompressionWriter.SequentialCompressionWriter.WriteMessage` | rosbag2_compression/src/rosbag2_compression/sequential_compression_writer.cpp:426-459 | the drop loop, the wait for room and the push, with the parameter reassigned by a drop: the data afterwards and the message pushed or kept waiting |
| `CompressionWriter.SequentialCompressionWriter.TakeWork` | rosbag2_compression/src/rosbag2_compression/sequential_compression_writer.cpp:124-146 | messages are taken before files, and a thread ends only with both queues empty |
| `CompressionWriter.SequentialCompressionWriter.SplitBagfile` | rosbag2_compression/src/rosbag2_compression/sequential_compression_writer.cpp:376-400 | the new name is appended first; then the closed file is queued, or the callback run |
| `CompressionWriter.SequentialCompressionWriter.FindPath` | rosbag2_compression/src/rosbag2_compression/sequential_compression_writer.cpp:171-172 | the position of the first entry with the name, or the end |
| `CompressionWriter.SequentialCompressionWriter.ReplacePath` | rosbag2_compression/src/rosbag2_compression/sequential_compression_writer.cpp:348-360 | the first entry equal to the raw name is overwritten; nothing happens when there is none |
| `CompressionWriter.SequentialCompressionWriter.NextFile` | rosbag2_compression/src/rosbag2_compression/sequential_compression_writer.cpp:164-178 | the entry after the first one with the compressed name, empty when there is none |
| `CompressionWriter.WriteIsARun` | rosbag2_compression/src/rosbag2_compression/sequential_compression_writer.cpp:415-460 | a whole write call as coded is a run of producer steps of the protocol: it ends waiting for room, or with the message pushed and exactly one of the sleeping workers woken, if any sleeps; the queue mutex is free either way |
| `CompressionWriter.DropAllIsARun` | rosbag2_compression/src/rosbag2_compression/sequential_compression_writer.cpp:427-442 | the drop loop as coded is a run of producer steps of the protocol |
| `CompressionWriter.SequentialCompressionWriter.StopThreads` | rosbag2_compression/src/rosbag2_compression/sequential_compression_writer.cpp:239-241 | the running flag is cleared, queues and storage stay as they are |
| `CompressionWriter.SequentialCompressionWriter.StoreMessage` | rosbag2_compression/src/rosbag2_compression/sequential_compression_writer.cpp:153-155 | the message is appended to the storage, nothing else changes |
| `CompressionWriter.StoreIsAStep` | rosbag2_compression/src/rosbag2_compression/sequential_compression_writer.cpp:153-155 | storing a compressed message is the step of a worker holding the storage mutex, which it then gives back |
| `CompressionWriter.StopIsARun` | rosbag2_compression/src/rosbag2_compression/sequential_compression_writer.cpp:234-243 | before joining, close clears the flag, releases the queue mutex and wakes every sleeping worker, and changes nothing else |
| `CompressionWriter.TakeIsAStep` | rosbag2_compression/src/rosbag2_compression/sequential_compression_writer.cpp:124-146 | the head of the worker loop as coded is the step of an inspecting worker, with exactly the wake-ups it causes |
| `CompressionWriter.DropRotates` | rosbag2_compression/src/rosbag2_compression/sequential_compression_writer.cpp:427-442 | a dropping call moves the front of the queue to its tail; the loss report names the topic of the lost message if and only if both topics are equal |
| `CompressionWriter.MisreportedLoss` | rosbag2_compression/src/rosbag2_compression/sequential_compression_writer.cpp:427-442 | concrete queue and message for which the lost topic is not the reported one |
| `Decimal.NamedAtUnique` | rosbag2_cpp/src/rosbag2_cpp/writers/sequential_writer.cpp:366-367 | no file name carries two counters, so the names of different files, raw or with an extension, never coincide |
| `Decimal.ParseIntRoundTrip` | rosbag2_storage/src/rosbag2_storage/qos.cpp:48-48 | a number rendered in decimal reads back as itself |
| `Cursor.LogIsSorted` | rosbag2_storage_mcap/src/mcap_storage.cpp:676-688 | the log of a direction holds exactly the rows of the file and is ordered by time, then position, or the reverse |
| `Cursor.SelectAhead` | rosbag2_storage_sqlite3/src/rosbag2_storage_sqlite3/sqlite_storage.cpp:740-767 | on a sorted log, asking for rows ahead that pass the filter is filtering what follows one cut |
| `Cursor.SeekMeaning` | rosbag2_storage_mcap/src/mcap_storage.cpp:835-841 | after a seek just the rows at the time sought and beyond, in reading direction, lie ahead, whatever was read before |
| `Cursor.ReadsInOrder` | rosbag2_storage_mcap/src/mcap_storage.cpp:783-792 | over any run without a seek, filters changing at will, the rows returned lie at strictly increasing positions, each passes the filter in force, and none that passes it is skipped |
| `Cursor.Cursor.RemainingSteps` | rosbag2_storage_mcap/src/mcap_storage.cpp:770-792 | what is read next heads the remaining rows, and reading removes just that row |
| `McapStorage.ResumeIsBeyond` | rosbag2_storage_mcap/src/mcap_storage.cpp:636-707 | a rebuilt iterator leaves pending exactly the rows strictly beyond the last (time, offset) that the filter accepts, in order, however many share the time; in file order this needs log times that never decrease |
| `McapStorage.ResumeIsRemaining` | rosbag2_storage_mcap/src/mcap_storage.cpp:636-707 | and these are what the abstract cursor has still to read |
| `McapStorage.ReadKeepsSync` | rosbag2_storage_mcap/src/mcap_storage.cpp:783-792 | after a read, rebuilding would give the rest of what was pending, and the abstract cursor has made the same read |
| `McapStorage.FileOrderExact` | rosbag2_storage_mcap/src/mcap_storage.cpp:636-707 | in file order, reading from any time on and whichever filter is set after a row was read, the rebuilt iterator resumes with the accepted rows behind that row if and only if no accepted row before it is later and none behind it is earlier |
| `McapStorage.FileOrderFiltered` | rosbag2_storage_mcap/src/mcap_storage.cpp:636-707 | with the filter kept, file order resumes exactly after every message read if and only if the log times of the accepted messages never decrease along the file |
| `McapStorage.FileOrderExactness` | rosbag2_storage_mcap/src/mcap_storage.cpp:636-688 | in particular, with every topic accepted, if and only if log times never decrease at all |
| `McapStorage.ReverseReplays` | rosbag2_storage_mcap/src/mcap_storage.cpp:734-766 | switching from log-time to reverse order after k reads replays reads k-1 down to 1 and ends |
| `McapStorage.ForwardFrom` | rosbag2_storage_mcap/src/mcap_storage.cpp:676-707 | switching from reverse to log-time order after any row leaves the accepted rows after it, in order |
| `McapStorage.BackwardFrom` | rosbag2_storage_mcap/src/mcap_storage.cpp:676-707 | rebuilding in reverse order after any row leaves the accepted rows before it, backwards |
| `McapStorage.McapStorage.constructor` | rosbag2_storage_mcap/src/mcap_storage.cpp:342-396 | a reader starts in file order with nothing read and everything pending |
| `McapStorage.McapStorage.ReadAndEnqueueMessage` | rosbag2_storage_mcap/src/mcap_storage.cpp:522-551 | the next message of the iterator becomes the lookahead together with its offset; at the end the lookahead is cleared |
| `McapStorage.McapStorage.EnqueuedMessageIsAlreadyRead` | rosbag2_storage_mcap/src/mcap_storage.cpp:690-708 | whether the lookahead has the time of the last message and an offset not beyond it in reading direction |
| `McapStorage.McapStorage.SkipAlreadyRead` | rosbag2_storage_mcap/src/mcap_storage.cpp:683-688 | drops lookahead messages while they were read before, and no others |
| `McapStorage.McapStorage.ResetIterator` | rosbag2_storage_mcap/src/mcap_storage.cpp:634-688 | afterwards the pending messages are those the filter, the order and the last key stand for |
| `McapStorage.McapStorage.HasNext` | rosbag2_storage_mcap/src/mcap_storage.cpp:770-781 | fetches at most one message ahead, loses none, and answers as the abstract cursor |
| `McapStorage.McapStorage.TakeNext` | rosbag2_storage_mcap/src/mcap_storage.cpp:783-792 | returns the first pending message, leaves the others, and remembers its time and offset |
| `McapStorage.McapStorage.ReadNext` | rosbag2_storage_mcap/src/mcap_storage.cpp:783-792 | as TakeNext, and in every exact order the same read and the same state as the abstract cursor |
| `McapStorage.McapStorage.SetFilter` | rosbag2_storage_mcap/src/mcap_storage.cpp:824-828 | the abstract cursor keeps its place and changes its filter, though a lookahead message is discarded |
| `McapStorage.McapStorage.Seek` | rosbag2_storage_mcap/src/mcap_storage.cpp:835-841 | the abstract cursor moves to the first row at or beyond the time in reading direction |
| `McapStorage.McapStorage.SetReadOrder` | rosbag2_storage_mcap/src/mcap_storage.cpp:734-766 | which orders are refused, that a refusal changes nothing, and that an accepted one rebuilds from the last key |
| `SqliteStorage.ResultIterator.constructor` | rosbag2_storage_sqlite3/include/rosbag2_storage_sqlite3/sqlite_statement_wrapper.hpp:66-76 | an iterator stands on the first row, or at the end of an empty result |
| `SqliteStorage.ResultIterator.Advance` | rosbag2_storage_sqlite3/include/rosbag2_storage_sqlite3/sqlite_statement_wrapper.hpp:84-95 | moves to the next row or the end; at the end it fails |
| `SqliteStorage.ResultIterator.Dereference` | rosbag2_storage_sqlite3/include/rosbag2_storage_sqlite3/sqlite_statement_wrapper.hpp:104-114 | always the current row of the statement, also repeatedly: the cache is used only for the row it was filled from |
| `SqliteStorage.QueryIsRemaining` | rosbag2_storage_sqlite3/src/rosbag2_storage_sqlite3/sqlite_storage.cpp:740-767 | the query rebuilt from the seek head yields what the abstract cursor has still to read |
| `SqliteStorage.ReadKeepsSync` | rosbag2_storage_sqlite3/src/rosbag2_storage_sqlite3/sqlite_storage.cpp:399-417 | in a fixed direction the query rebuilt after a read resumes at the exact successor of the row read |
| `SqliteStorage.SeekIsCut` | rosbag2_storage_sqlite3/src/rosbag2_storage_sqlite3/sqlite_storage.cpp:1018-1025 | a seek places the seek head at the first row at or beyond the time in reading direction |
| `SqliteStorage.FlipExact` | rosbag2_storage_sqlite3/src/rosbag2_storage_sqlite3/sqlite_storage.cpp:399-413 | changing the direction without a seek after a row was read, in either direction, resumes behind that row if and only if the filter accepts neither the row nor its unread neighbour with the next row id and the same time |
| `SqliteStorage.FlipRepeatsRow` | rosbag2_storage_sqlite3/src/rosbag2_storage_sqlite3/sqlite_storage.cpp:413-413 | from forward to reverse: the rows from the row just read backwards, preceded by its unread successor exactly when that has the same time and the next row id |
| `SqliteStorage.FlipBackRepeatsRow` | rosbag2_storage_sqlite3/src/rosbag2_storage_sqlite3/sqlite_storage.cpp:413-413 | from reverse to forward: the rows from the row just read onwards, or from its unread predecessor exactly when that has the same time and the previous row id |
| `SqliteStorage.FlipAfterSeek` | rosbag2_storage_sqlite3/src/rosbag2_storage_sqlite3/sqlite_storage.cpp:374-388 | changing the direction after a seek without a read gives what seeking in the new direction gives if and only if the filter accepts no row of the time sought other than the one whose row id is in the seek head |
| `SqliteStorage.SqliteStorage.constructor` | rosbag2_storage_sqlite3/src/rosbag2_storage_sqlite3/sqlite_storage.cpp:374-388 | a reader starts forward, unfiltered, at time and row id 0 |
| `SqliteStorage.SqliteStorage.PrepareForReading` | rosbag2_storage_sqlite3/src/rosbag2_storage_sqlite3/sqlite_storage.cpp:731-768 | fails exactly when SQLite rejects the rendered filter, and then changes nothing |
| `SqliteStorage.SqliteStorage.HasNext` | rosbag2_storage_sqlite3/src/rosbag2_storage_sqlite3/sqlite_storage.cpp:390-397 | answers as the abstract cursor, preparing the statement if needed |
| `SqliteStorage.SqliteStorage.TakeRow` | rosbag2_storage_sqlite3/src/rosbag2_storage_sqlite3/sqlite_storage.cpp:406-416 | takes the row of the statement and moves the seek head behind it in reading direction |
| `SqliteStorage.SqliteStorage.ReadPrepared` | rosbag2_storage_sqlite3/src/rosbag2_storage_sqlite3/sqlite_storage.cpp:406-416 | the same as one read of the abstract cursor |
| `SqliteStorage.SqliteStorage.ReadNext` | rosbag2_storage_sqlite3/src/rosbag2_storage_sqlite3/sqlite_storage.cpp:399-417 | the same read and the same state as the abstract cursor; the error at the end and for a rejected filter change nothing |
| `SqliteStorage.SqliteStorage.SetFilter` | rosbag2_storage_sqlite3/src/rosbag2_storage_sqlite3/sqlite_storage.cpp:1004-1011 | the abstract cursor keeps its place and changes its filter |
| `SqliteStorage.SqliteStorage.Seek` | rosbag2_storage_sqlite3/src/rosbag2_storage_sqlite3/sqlite_storage.cpp:1018-1025 | the abstract cursor moves to the first row at or beyond the time in reading direction |
| `SqliteStorage.SqliteStorage.SetReadOrder` | rosbag2_storage_sqlite3/src/rosbag2_storage_sqlite3/sqlite_storage.cpp:374-388 | only receive-time order is accepted; the seek head is not touched |
| `Lockstep.RunBoth` | rosbag2_storage_mcap/src/mcap_storage.cpp:634-841 | both plugins opened on the same messages, set to one direction, and sought or not, return the same answers and messages over every sequence of has_next, read_next, set_filter and seek, namely those of the abstract cursor; only backward without a seek the bag must have no message at time 0 other than row id 0 |
| `Lockstep.StartsAlikeExact` | rosbag2_storage_sqlite3/src/rosbag2_storage_sqlite3/sqlite_storage.cpp:740-756 | that condition on the bag is exact: without it the plugins differ right after opening |
| `Lockstep.UnsoughtReverse` | rosbag2_storage_sqlite3/src/rosbag2_storage_sqlite3/sqlite_storage.cpp:740-756 | opened and set to reverse without a seek, the plugins have the same rows to come if and only if the filter accepts no row at time 0 other than row id 0 |
| `Lockstep.FlipSoughtCompared` | rosbag2_storage_sqlite3/src/rosbag2_storage_sqlite3/sqlite_storage.cpp:374-388 | when the direction changes after a seek without a read, the plugins go on alike if and only if the filter accepts no row of the time sought other than the one in the seek head |
| `Lockstep.FlipCompared` | rosbag2_storage_sqlite3/src/rosbag2_storage_sqlite3/sqlite_storage.cpp:399-413 | when the direction changes after a read, the two plugins continue alike if and only if the filter accepts neither the row read nor its unread neighbour with the next row id and the same time |
| `Lockstep.DriveMcap` | rosbag2_storage_mcap/src/mcap_storage.cpp:770-841 | every sequence of reader operations on the MCAP plugin returns what the abstract cursor returns |
| `Lockstep.DriveSqlite` | rosbag2_storage_sqlite3/src/rosbag2_storage_sqlite3/sqlite_storage.cpp:390-417 | every sequence of reader operations on the SQLite plugin returns what the abstract cursor returns |
| `Lockstep.WhenSameTopics` | rosbag2_storage/include/rosbag2_storage/storage_filter.hpp:24-70 | for categorised filters over alike names both plugins let the same topics of a bag through if and only if the filter is not exceptional or the bag has no unlisted plain topic |
| `TopicFilter.McapCategories` | rosbag2_storage_mcap/src/mcap_storage.cpp:555-588 | MCAP takes a name for one of an action if and only if it is something followed by one of the five action postfixes, and for a service event if and only if it is something followed by /_service_event and none of an action |
| `TopicFilter.SqlCategories` | rosbag2_storage_sqlite3/src/rosbag2_storage_sqlite3/sqlite_storage.cpp:590-676 | SQLite takes a name for one of an action if and only if it contains /_action/, and for a service event if and only if it ends in /_service_event and does not |
| `TopicFilter.WhenAlike` | rosbag2_storage_mcap/src/mcap_storage.cpp:555-588 | the plugins classify a name differently if and only if it has an action marker without a known action postfix or is the bare service postfix |
| `TopicFilter.AppendNames` | rosbag2_storage_sqlite3/src/rosbag2_storage_sqlite3/sqlite_storage.cpp:574-586 | the quoting loop writes a comma after every name but the last |
| `TopicFilter.RenderIncluded` | rosbag2_storage_sqlite3/src/rosbag2_storage_sqlite3/sqlite_storage.cpp:574-614 | the included list as written, with a separator only after text |
| `TopicFilter.RenderExcluded` | rosbag2_storage_sqlite3/src/rosbag2_storage_sqlite3/sqlite_storage.cpp:683-718 | the excluded list as written, with separators that do not look for text |
| `TopicFilter.IncludedRoundTrip` | rosbag2_storage_sqlite3/src/rosbag2_storage_sqlite3/sqlite_storage.cpp:574-614 | reading the included list as SQL literals gives back topics, services, actions in order, duplicates included |
| `TopicFilter.ExcludedRoundTrip` | rosbag2_storage_sqlite3/src/rosbag2_storage_sqlite3/sqlite_storage.cpp:683-718 | the same for the excluded list if and only if excluded topics come first or there are no other exclusions; otherwise SQL rejects it |
| `TopicFilter.WhenSqlPrepares` | rosbag2_storage_sqlite3/src/rosbag2_storage_sqlite3/sqlite_storage.cpp:731-765 | the statement can be prepared if and only if the excluded list is renderable |
| `TopicFilter.ListedMeaning` | rosbag2_storage_sqlite3/src/rosbag2_storage_sqlite3/sqlite_storage.cpp:616-676 | each of the conditions pushed for a non-empty list selects what the MCAP rule selects, plus all plain topics in the exceptional case |
| `TopicFilter.SelectionsCompared` | rosbag2_storage_sqlite3/src/rosbag2_storage_sqlite3/sqlite_storage.cpp:570-728 | SQLite selects every topic that MCAP selects; it selects another one if and only if the filter is exceptional and the topic is plain, unlisted and not excluded |
| `TopicFilter.AgreementExact` | rosbag2_storage_sqlite3/src/rosbag2_storage_sqlite3/sqlite_storage.cpp:643-648 | without an exclusion regex both plugins agree on all alike names if and only if the filter is not exceptional |
| `Yaml.EncodeTable` | rosbag2_storage/include/rosbag2_storage/yaml.hpp:63-70 | the loop over the table builds one entry per key in whatever order it runs, and leaves an empty table a null node |
| `Yaml.TableRoundTrip` | rosbag2_storage/include/rosbag2_storage/yaml.hpp:61-79 | a string table reads back as itself, also when empty |
| `Yaml.IntegerRoundTrip` | rosbag2_storage/include/rosbag2_storage/yaml.hpp:260-264 | a written number reads back if and only if it fits the type it is read as |
| `QosCodec.PolicyRoundTrip` | rosbag2_storage/src/rosbag2_storage/qos.cpp:45-127 | every policy value reads back as itself: any code from its number, every enumerator from its name |
| `QosCodec.NamesOfPolicies` | rosbag2_storage/src/rosbag2_storage/qos.cpp:45-127 | the names of all enumerators that have one |
| `QosCodec.NamesAreNotNumbers` | rosbag2_storage/src/rosbag2_storage/qos.cpp:174-184 | no policy name is taken for a number, so the format detection cannot err on what the encoder wrote |
| `QosCodec.TimeRoundTrip` | rosbag2_storage/src/rosbag2_storage/qos.cpp:129-149 | a duration reads back as itself, a legacy infinity as the standard infinity |
| `QosCodec.InfiniteRoundTrip` | rosbag2_storage/src/rosbag2_storage/qos.cpp:38-149 | a written duration reads back as 9223372036 s and 854775807 ns if and only if its saturated total is 9223372036854775807, 2147483651294967295 or 2147483649147483647 ns, and as itself otherwise |
| `QosCodec.QosRoundTrip` | rosbag2_storage/src/rosbag2_storage/qos.cpp:151-213 | a profile written for any version reads back as its normalised self if and only if a keep-last depth fits an int |
| `QosCodec.ProfileRoundTrip` | rosbag2_storage/src/rosbag2_storage/qos.cpp:151-213 | field by field: policies and namespace flag are kept, the depth of a keep-last profile is kept and any other becomes 10, durations read back as said above; reading fails if and only if a keep-last depth is above 2147483647 |
| `QosCodec.NegativeDepth` | rosbag2_storage/src/rosbag2_storage/qos.cpp:197-199 | a negative keep-last depth in a document reads as that number plus 2^64 |
| `QosCodec.NormalisedIsStable` | rosbag2_storage/src/rosbag2_storage/qos.cpp:167-213 | normalising is idempotent, and a profile read once survives writing and reading in either format |
| `QosCodec.ReadQos` | rosbag2_storage/src/rosbag2_storage/qos.cpp:167-213 | the decoder as coded gives the same result whatever version it is told |
| `QosCodec.QosListRoundTrip` | rosbag2_storage/src/rosbag2_storage/qos.cpp:251-275 | a list of profiles reads back normalised item by item; one unreadable profile fails the list |
| `QosCodec.WriteQosList` | rosbag2_storage/src/rosbag2_storage/qos.cpp:251-258 | the loop writes every profile in order |
| `QosCodec.ReadQosList` | rosbag2_storage/src/rosbag2_storage/qos.cpp:260-275 | the loop reads every profile in order and stops at the first failure |
| `QosCodec.OverridesRoundTrip` | rosbag2_storage/src/rosbag2_storage/qos.cpp:277-320 | overrides by topic read back as the same map, however the map was walked when writing, and just so from the earlier map form of any version |
| `QosCodec.OverridesFieldByField` | rosbag2_storage/src/rosbag2_storage/qos.cpp:277-320 | every override reads back for its own topic, field by field |
| `MetadataCodec.DurationRoundTrip` | rosbag2_storage/include/rosbag2_storage/yaml.hpp:251-284 | a time reads back if and only if it is not negative |
| `MetadataCodec.HugeDuration` | rosbag2_storage/include/rosbag2_storage/yaml.hpp:251-264 | a count of 2^63 or more in a document reads as that number minus 2^64 |
| `MetadataCodec.FileRoundTrip` | rosbag2_storage/include/rosbag2_storage/yaml.hpp:227-248 | file information reads back if and only if its times are not negative |
| `MetadataCodec.ProfilesRoundTrip` | rosbag2_storage/include/rosbag2_storage/yaml.hpp:146-170 | profiles are lost below version 4, pass through text below version 9, and read back normalised |
| `MetadataCodec.TopicRoundTrip` | rosbag2_storage/include/rosbag2_storage/yaml.hpp:138-176 | a topic reads back without its id, and with profiles and type hash as far as the version has them |
| `MetadataCodec.TopicsRoundTrip` | rosbag2_storage/include/rosbag2_storage/yaml.hpp:200-224 | the topic list reads back entry by entry; one unreadable topic fails it |
| `MetadataCodec.WriteTopics` | rosbag2_storage/include/rosbag2_storage/yaml.hpp:202-209 | the loop writes every topic in order |
| `MetadataCodec.ReadTopics` | rosbag2_storage/include/rosbag2_storage/yaml.hpp:211-223 | the loop reads every topic in order and stops at the first failure |
| `MetadataCodec.WriteBag` | rosbag2_storage/include/rosbag2_storage/yaml.hpp:289-307 | the encoder as coded, key by key |
| `MetadataCodec.ReadBag` | rosbag2_storage/include/rosbag2_storage/yaml.hpp:309-339 | the decoder as coded, gate by gate, into a given object |
| `MetadataCodec.BagRoundTrip` | rosbag2_storage/include/rosbag2_storage/yaml.hpp:287-340 | for every version and into any object, encoded metadata reads back with exactly the fields the version has, the others kept from the object; it fails if and only if a time the version has is negative or a profile is unreadable |
| `MetadataCodec.FieldsRoundTrip` | rosbag2_storage/include/rosbag2_storage/yaml.hpp:287-340 | the same field by field: versions 3, 4, 5, 6, 7 and 8 bring compression, profiles, files, custom data, type hash and distribution, ids read back as 0 and the bag size stays that of the object; reading fails if and only if a time or a keep-last depth that the version has is out of range |
| `MetadataCodec.MissingFieldsEmpty` | rosbag2_storage/src/rosbag2_storage/metadata_io.cpp:69-81 | read from a file, fields that its version lacks come out empty |
| `MetadataCodec.RewriteIsStable` | rosbag2_storage/src/rosbag2_storage/metadata_io.cpp:69-81 | reading a file, writing what was read and reading again gives the same metadata |
| `ServiceInfo.OneInterface` | rosbag2_cpp/src/rosbag2_cpp/action_utils.cpp:122-133 | the action postfixes exclude each other, so the order of the map that holds them does not matter |
| `ServiceInfo.CollectNames` | rosbag2_cpp/src/rosbag2_cpp/info.cpp:175-207 | the loop over the topics builds the name tables |
| `ServiceInfo.NamesMeaning` | rosbag2_cpp/src/rosbag2_cpp/info.cpp:175-207 | a name is registered as action interface or service event if and only if some topic of that name is of that kind |
| `ServiceInfo.RegisteredServices` | rosbag2_cpp/src/rosbag2_cpp/info.cpp:175-207 | a service is registered if and only if some topic of that name ends in /_service_event, has no /_action/ in it, and has a type of a package for services that ends in _Event |
| `ServiceInfo.RegisteredActions` | rosbag2_cpp/src/rosbag2_cpp/info.cpp:175-207 | each of the five topics of an action is registered if and only if some topic has that name and a type that fits its interface |
| `ServiceInfo.InterfaceTellsApart` | rosbag2_cpp/src/rosbag2_cpp/info.cpp:219-251 | of the registered names, those with an action interface are those of actions, under their action name |
| `ServiceInfo.RoleOfActionTopic` | rosbag2_cpp/src/rosbag2_cpp/info.cpp:222-285 | of all topics only the action name followed by /_action/send_goal/_service_event, /_action/cancel_goal/_service_event, /_action/get_result/_service_event, /_action/feedback and /_action/status count for the action, each for just that service or counter |
| `ServiceInfo.RoleOfService` | rosbag2_cpp/src/rosbag2_cpp/info.cpp:216-251 | a topic counts for a service if and only if it is registered as that service |
| `ServiceInfo.ReadMessages` | rosbag2_cpp/src/rosbag2_cpp/info.cpp:216-304 | the reading loop leaves, per service and direction, exactly the distinct calls, and plain counts of feedback and status; the first unreadable event fails it |
| `ServiceInfo.NumberOfMessages` | rosbag2_cpp/src/rosbag2_cpp/info.cpp:80-90 | summing the set sizes over the clients counts the distinct (client, sequence number) pairs |
| `ServiceInfo.CountCalls` | rosbag2_cpp/src/rosbag2_cpp/info.cpp:94-141 | every set of calls is turned into its count |
| `ServiceInfo.ReadServiceAndActionInfo` | rosbag2_cpp/src/rosbag2_cpp/info.cpp:148-321 | for each service, requests are the distinct (client, sequence number) pairs of the messages of types 0 and 1 on its topic, responses those of types 2 and 3; likewise for the three services of each action; feedback and status are the numbers of messages on these topics; it fails with the first message on a topic of events that holds no event or one of a type above 3 |
| `ServiceInfo.OrderIrrelevant` | rosbag2_cpp/src/rosbag2_cpp/info.cpp:216-304 | the order of the messages changes no count, nor whether the report fails |
| `ServiceInfo.SentAndReceivedOnce` | rosbag2_cpp/src/rosbag2_cpp/info.cpp:253-300 | the sent and the received event of a call count once |
| `ReindexerOutcome.AggregateInterval` | rosbag2_cpp/src/rosbag2_cpp/reindexer.cpp:187-265 | start and start plus duration of the rebuilt metadata cover every file, and every interval that does so contains them |
| `ReindexerOutcome.AggregateTotals` | rosbag2_cpp/src/rosbag2_cpp/reindexer.cpp:187-265 | size and message count are the sums over the files, the paths are those given, and the storage identifier is that of the last file |
| `ReindexerOutcome.AggregateData` | rosbag2_cpp/src/rosbag2_cpp/reindexer.cpp:217-226 | the custom data are those of the last file that has any among the files that start later than all before them; without such a file there are none |
| `ReindexerOutcome.AggregateDistro` | rosbag2_cpp/src/rosbag2_cpp/reindexer.cpp:217-226 | the same for the distribution |
| `ReindexerOutcome.AggregateTopics` | rosbag2_cpp/src/rosbag2_cpp/reindexer.cpp:231-264 | the topics are those of the files, each with the sum of its counts over all entries of all files |
| `ReindexerOutcome.AggregateTexts` | rosbag2_cpp/src/rosbag2_cpp/reindexer.cpp:243-253 | type, format and offered profiles of a topic are those of the last entry in any file that gives them |
| `ReindexerOutcome.AggregateNothing` | rosbag2_cpp/src/rosbag2_cpp/reindexer.cpp:243-253 | what no entry gives stays empty |
| `ReindexerOutcome.AggregateHash` | rosbag2_cpp/src/rosbag2_cpp/reindexer.cpp:234-242 | the type hash of a topic is that of its first entry |
| `Reindexer.SmallestInterval` | rosbag2_cpp/src/rosbag2_cpp/reindexer.cpp:228-229 | start and end are the smallest interval covering every file |
| `Reindexer.MergedNames` | rosbag2_cpp/src/rosbag2_cpp/reindexer.cpp:234-255 | the merged topics are exactly those some file has |
| `Reindexer.MergedCounts` | rosbag2_cpp/src/rosbag2_cpp/reindexer.cpp:234-255 | the merged count of a topic is the sum over all files |
| `Reindexer.MergedTexts` | rosbag2_cpp/src/rosbag2_cpp/reindexer.cpp:243-253 | type, format and offered profiles of a topic are the last non-empty ones |
| `Reindexer.LastDataDecides` | rosbag2_cpp/src/rosbag2_cpp/reindexer.cpp:217-226 | the last file with custom data decides if it starts later than every file before it, and otherwise the files before it decide; for every list of files |
| `Reindexer.LastDistroDecides` | rosbag2_cpp/src/rosbag2_cpp/reindexer.cpp:217-226 | the same for the distribution |
| `Reindexer.LatestWins` | rosbag2_cpp/src/rosbag2_cpp/reindexer.cpp:217-226 | custom data and distribution are those of the last file that has any if and only if it starts later than every file before it, or these already yield the same |
| `Reindexer.GreatestStartWins` | rosbag2_cpp/src/rosbag2_cpp/reindexer.cpp:217-226 | of the files with custom data, the one that starts last contributes exactly when it also starts later than every file before it; otherwise it might as well have none |
| `Reindexer.OthersIgnored` | rosbag2_cpp/src/rosbag2_cpp/reindexer.cpp:217-226 | what a file carries makes no difference unless it starts later than every file before it |
| `Reindexer.IncreasingStartsSuffice` | rosbag2_cpp/src/rosbag2_cpp/reindexer.cpp:217-226 | with increasing starts, custom data and distribution come from the latest file that has any |
| `Reindexer.UnorderedLoses` | rosbag2_cpp/src/rosbag2_cpp/reindexer.cpp:217-226 | an instance: of two files only the second has data and does not start later, and the data are lost |
| `Reindexer.CountsAddUp` | rosbag2_cpp/src/rosbag2_cpp/reindexer.cpp:231-264 | the per-topic counts, however listed, add up to the total whenever those of every file do |
| `Reindexer.OrderIrrelevant` | rosbag2_cpp/src/rosbag2_cpp/reindexer.cpp:187-265 | interval, total, size and per-topic counts do not depend on the order of the files |
| `Reindexer.Reindexer.InitMetadata` | rosbag2_cpp/src/rosbag2_cpp/reindexer.cpp:163-178 | fresh metadata with the paths in order and the start at the maximum |
| `Reindexer.Reindexer.MergeTopics` | rosbag2_cpp/src/rosbag2_cpp/reindexer.cpp:234-255 | the loop over the topics of one file |
| `Reindexer.Reindexer.AggregateMetadata` | rosbag2_cpp/src/rosbag2_cpp/reindexer.cpp:187-265 | the loop over the files computes the aggregate the other rows are about |
| `Reindexer.Reindexer.Reindex` | rosbag2_cpp/src/rosbag2_cpp/reindexer.cpp:273-297 | fails exactly when there is no file |
| `Reindexer.NumberIsLast` | rosbag2_cpp/src/rosbag2_cpp/reindexer.cpp:71-115 | by the old convention the number of a file is the last one before the extension, not the counter its name begins with |
| `Reindexer.NewNumberOfWriterPath` | rosbag2_cpp/src/rosbag2_cpp/reindexer.cpp:69-115 | for a file of a recording, under any path of the bag, the new convention applies if and only if that path begins with digits and an underscore, and then takes those digits |
| `Reindexer.OrderedBySeconds` | rosbag2_cpp/src/rosbag2_cpp/reindexer.cpp:59-118 | for any two files of a recording, under any path of the bag and whatever their counters: in a numbered folder they tie, anywhere else the seconds of their time stamps are compared |
| `Reindexer.OpeningOrderExact` | rosbag2_cpp/src/rosbag2_cpp/reindexer.cpp:149-155 | the comparison puts the files of a recording in opening order if and only if the path of the bag does not begin with digits and an underscore and the seconds of the time stamps increase from file to file |
| `Reindexer.MisorderedRecording` | rosbag2_cpp/include/rosbag2_cpp/reindexer.hpp:93-96 | concrete paths: a file opened seven seconds after another is put before it; in a numbered folder neither is |
| `SqliteMetadata.SqliteMetadata.constructor` | rosbag2_storage_sqlite3/src/rosbag2_storage_sqlite3/sqlite_storage.cpp:1101-1110 | no ids given |
| `SqliteMetadata.SqliteMetadata.GetOrGenerateExternTopicId` | rosbag2_storage_sqlite3/src/rosbag2_storage_sqlite3/sqlite_storage.cpp:1101-1126 | ids stay distinct, 1 to the last one given, at most 65535; existing ids do not change; the error comes if and only if a new topic meets 65535 given ids |
| `SqliteMetadata.SqliteMetadata.FillTopicsAndTypes` | rosbag2_storage_sqlite3/src/rosbag2_storage_sqlite3/sqlite_storage.cpp:782-822 | every row of the topics table is appended, in order and field by field, with the id its topic is given; it fails if and only if the topics with an id would become more than 65535 |
| `SqliteMetadata.SqliteMetadata.FindTopic` | rosbag2_storage_sqlite3/src/rosbag2_storage_sqlite3/sqlite_storage.cpp:853-857 | the first listed topic equal to the given one, profiles aside |
| `SqliteMetadata.SqliteMetadata.AddTopicToMetadata` | rosbag2_storage_sqlite3/src/rosbag2_storage_sqlite3/sqlite_storage.cpp:839-870 | the count of an equal topic is set, or the topic appended; the total grows by the count; it fails if and only if a new topic meets 65535 given ids, and then changes nothing |
| `SqliteMetadata.SqliteMetadata.AddRows` | rosbag2_storage_sqlite3/src/rosbag2_storage_sqlite3/sqlite_storage.cpp:913-970 | the loop over the grouped rows stores them in order, each under its id, sums the counts and collects least and greatest time; no given id changes; it fails if and only if ids run out |
| `SqliteMetadata.SqliteMetadata.ListTopics` | rosbag2_storage_sqlite3/src/rosbag2_storage_sqlite3/sqlite_storage.cpp:891-909 | the listed topics are exactly the known ones, in order, each with count 0; these stay as they are, or are the rows of the topics table, field by field, when none were known |
| `SqliteMetadata.SqliteMetadata.ReadMetadata` | rosbag2_storage_sqlite3/src/rosbag2_storage_sqlite3/sqlite_storage.cpp:872-985 | every known topic is listed with its metadata, with the count of its row or 0; every row is listed with its id, name, type, format, type hash and count; nothing else and nothing twice; the total is the sum of the counts; start and duration come from least and greatest time, zero for an empty bag; reading succeeds if and only if the topics ever given an id and those of table and rows are at most 65535 |
| `SqliteMetadata.AllStored` | rosbag2_storage_sqlite3/src/rosbag2_storage_sqlite3/sqlite_storage.cpp:899-947 | storing all rows into known topics without messages lists each row with its count, keeps every known topic, and the counts, name by name and in total, are those of the rows |
| `SqliteMetadata.StoreCounts` | rosbag2_storage_sqlite3/src/rosbag2_storage_sqlite3/sqlite_storage.cpp:849-869 | setting a count instead of adding it loses nothing, because no two rows have the same name |
| `SqliteMetadata.TotalIsAll` | rosbag2_storage_sqlite3/src/rosbag2_storage_sqlite3/sqlite_storage.cpp:913-947 | the total is the number of stored messages |
| `SqliteMetadata.Spans` | rosbag2_storage_sqlite3/src/rosbag2_storage_sqlite3/sqlite_storage.cpp:897-985 | the start is the earliest stored time; the end is the latest one if and only if some stored time is not negative |
| `QosAdaptation.AdaptRequestToOffers` | rosbag2_storage/src/rosbag2_storage/qos.cpp:332-414 | the request as coded is the one the next rows are about |
| `QosAdaptation.CountOffers` | rosbag2_storage/src/rosbag2_storage/qos.cpp:338-353 | the counts reach the number of endpoints exactly when all endpoints agree; the depth is the maximum |
| `QosAdaptation.RequestFields` | rosbag2_storage/src/rosbag2_storage/qos.cpp:332-414 | the request keeps the greatest offered depth when that is above 1 and all messages otherwise, is reliable or transient local only when all offers are, and has every other policy at its default |
| `QosAdaptation.StrongestRequest` | rosbag2_storage/src/rosbag2_storage/qos.cpp:332-414 | all offers satisfy the adapted request, and they satisfy another one if and only if it asks for no more |
| `QosAdaptation.RequestOrderIrrelevant` | rosbag2_storage/src/rosbag2_storage/qos.cpp:341-353 | order and repetition of endpoints do not matter |
| `QosAdaptation.MoreOffersNeverStrengthen` | rosbag2_storage/src/rosbag2_storage/qos.cpp:370-399 | more endpoints never strengthen the request nor lessen its depth, once there is one |
| `QosAdaptation.FirstOfferMayStrengthen` | rosbag2_storage/src/rosbag2_storage/qos.cpp:335-337 | the first endpoint strengthens the default request if and only if it is transient local |
| `QosAdaptation.AllProfilesEffectivelySame` | rosbag2_storage/src/rosbag2_storage/qos.cpp:427-448 | comparing each profile with the first decides whether all pairs agree on the policies that affect compatibility |
| `QosAdaptation.AdaptOfferToRecordedOffers` | rosbag2_storage/src/rosbag2_storage/qos.cpp:451-467 | the first profile with default history when all agree, the default profile otherwise |
| `QosAdaptation.OfferFields` | rosbag2_storage/src/rosbag2_storage/qos.cpp:451-467 | when all profiles agree with the first on the five policies that affect compatibility, the offer has every policy of the first but a keep-last history of depth 10; otherwise it is the default |
| `QosAdaptation.OfferOrder` | rosbag2_storage/src/rosbag2_storage/qos.cpp:451-467 | the order of the recorded profiles matters at most for lifespan and the namespace flag |

## Left out

- Compressing writer: the snapshot cache, thread priority, removal of compressed source files, statistics, and the base folder in the names that callbacks report.
- Compressing writer: failures and exceptions of storage, compressor and file system; `open` and writes after `close`; bags limited to a number of files, whose list is also shortened at the front.
- Compressing writer: the base class is reduced to appending to storage, appending a fresh name that starts with the next counter, and running callbacks; the upper writer mutex only justifies the single producer; a compression thread runs until it blocks, its steps inside a critical section are one step.
- Readers: payload decoding, message definitions, the reset of a filter, reading while writing, and bags of several files.
- Readers: time stamps are not negative; row ids and times are unbounded integers, so wrap-around of the 32-bit row id and the largest representable time are not modelled.
- Readers: SQL quoting of names with quotes; the regular expression engines; send time stamps, which the SQLite reader does not read.
- SqliteStorage.SqliteStorage.SetFilter: the selection of a filter is a constant function of the table, because the topics of a bag do not change while it is read.
- Lockstep.RunBoth: filters must be such that both plugins let the same topics of the bag through; `Lockstep.WhenSameTopics` says when they do.
- Metadata codec: numerals other than decimal, spellings of booleans other than true and false, and duplicate keys; the assignments made to a decoded object before an exception.
- QosCodec.PolicyRoundTrip: in the name form only enumerators that have a name; the name of the deprecated manual-by-node liveliness is up to the middleware, in the number form it is covered.
- QosCodec.QosRoundTrip: in the name form, profiles whose policies have names; in the number form any codes, but a history that is one of the four enumerators, since the detection goes by that.
- Metadata codec: codecs of durations in seconds, of milliseconds, of size tables and of storage options, which only repeat the pattern; the map form without version of profile overrides is decode only.
- Service information: service and type names of the report and its output order; patterns on type names of action topics are a given predicate.
- Reindexer: the order of topics in the output (by name), the sort itself, and file numbers beyond 64 bits; counts and times are unbounded integers, with a range condition where an initial value matters.
- SQLite metadata: the metadata table of newer files, storage identifier, bag size, distribution, and profiles of older schemas; rows of the grouped query are taken as given and `SqliteMetadata.Groups` says what they must be.
- QoS adaptation: logging, and publishers with policies other than reliable or best effort and volatile or transient local, for which only the computed request is stated.
- Player, recorder, converters, message cache, command line, Python bindings and plugin loading: forwarding or no state to reason about.
