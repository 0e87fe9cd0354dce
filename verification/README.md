# Redis and predixy, modelled in Dafny

This project models the parts of Redis 5.0.12 and of the predixy proxy that hold their state together, and
proves what they are for.

* **Append-only file** (`Bytes`, `AofFormat`, `AofLoader`, `AofRun`, `AofServer`, `AofRewrite`). The format of the log
  and its loader; the server as a step machine of feeding commands, MULTI and EXEC, flushing with any write outcome,
  forking a rewrite, shipping differences over pipes, the stop and ack handshake, the switch to the new file, crashes
  and restarts; the classes of aof.c, each method proved equal to a step; and the rewriting of a dataset into commands.
  The main results are `Durable`, `RestartDurable`, `RewriteInEveryRun`, `CutTransactions` and `RewriteRebuilds`.
* **Blocked clients** (`Blocked`, `BlockedRun`, `BlockedLists`, `AdList`). The two-sided index of clients and keys,
  also with the nodes of linked lists as handles, the ready keys, and serving. The main results are
  `HandleClientsBlockedOnKeys`, which ends, conserves elements and leaves nobody waiting for what is there, and
  `BlockedRun.Run` over whole runs.
* **The proxy's RESP streams** (`Buffers`, `Places`, `ClientOutput`, `ClientRun`, `ReplyFormat`, `ReplyGrammar`,
  `ResponseParser`, `ReplyReader`, `RequestFormat`, `RequestGrammar`, `RequestKeys`, `RequestReads`, `RequestParser`,
  `ReplyMerge`). Chained buffers
  and segments on the heap, several in one buffer that goes on filling; output resumed after short writes, with
  `ClientRun.Serve` over whole runs; the two resumable parsers against one-byte automata, and these against a printer
  and a grammar of what they accept, with the places of every segment; the splitting of commands of many keys, by a
  decision made anew for each read, and the merging of their replies in any order of arrival. The main results are
  `ClientRun.Serve`, `ReadReply`, `ReplyGrammar.Accepts`, `ResponsesAreReplies`, `ReadCommands` and `MgetExact`.
  The wire format is RESP version 2 (Redis serialization protocol specification,
  sections "Arrays" and "Bulk strings").
* **Bits and checksums** (`BitOps`, `BitField`, `Crc64`). Word-level counting and finding of bits against their
  definitions, integers of any width in a bitmap with their overflow rules, and the table-driven CRC-64 against division
  by its polynomial. The main results are `Popcount`, `Bitpos`, `IncrBy` and `BurstDetected`.
* **Lookup by ordered map** (`DataCenter`).

`Options` holds the one datatype for what may be absent.

Where the code changes state in place, the model does: classes with the source's fields, methods with loops. Where a
property is about all runs or all streams, it is stated on a specification that the methods are proved to refine.
The clock, the results of write, writev, read, fork and ftruncate, and the execution of ordinary commands are
parameters: every result they can have is covered.

Seven properties turned out to hold only under a condition, which is proved to be exact: the valid length after a
cut inside a transaction (`AofLoader.CutTransactions`), and with it durability over a crash (`AofRun.RestartDurable`);
the reply parser on null arrays and deep nesting (`ReplyFormat.ReadReply`); the count kept with the first reply of DEL,
EXISTS, TOUCH and UNLINK (`ReplyMerge.CountIsSum`); the output of MGET when servers answer with arrays of other lengths
(`ReplyMerge.MgetExactly`, with a concrete case in `EmptyArrayCounts`); the requests of a command when the decision to
split changes while it is being read (`RequestParser.SwitchedRight`); and waiting clients when a value is stored without
a signal (`Blocked.Server.SetKey`, with a concrete case in `OverwriteForgets` and runs to two such events in
`BlockedRun.ForgettingRun` and `ForgettingRename`).

One place where code and comment differ: the header of crc64.c gives an initial value of all ones besides the sentence
that it is 0. The check value named there is that of the seed 0 (`Crc64.CheckValue`).

## Model

| member | source | states |
|---|---|---|
| `AofFormat.CatAppendOnlyGenericCommand` | origin/redis-5.0.12/src/aof.c:518-541 | the printed command is appended to what is there, byte for byte as the format defines it |
| `AofFormat.ReadPrintedCommand` | origin/redis-5.0.12/src/aof.c:752-800 | round trip: the loader reads a printed command back with its own argument vector, any bytes in it, and stops exactly behind it |
| `AofFormat.ReadCutCommand` | origin/redis-5.0.12/src/aof.c:752-800 | from any proper, non-empty prefix of a printed command the loader gets a read error at the end of the file, never a format error |
| `AofFormat.ReadPrintedArgs` | origin/redis-5.0.12/src/aof.c:770-793 | the same for any number of arguments followed by any bytes |
| `AofFormat.ReadCutArgs` | origin/redis-5.0.12/src/aof.c:770-793 | a list of arguments cut anywhere reads as an end of file |
| `AofLoader.LoadTransactional` | origin/redis-5.0.12/src/aof.c:752-868 | loading a log with MULTI/EXEC gives the effect of its committed commands, and the size up to which it is valid |
| `AofLoader.LoadWhole` | origin/redis-5.0.12/src/aof.c:752-868 | an uncut log is replayed to its own effect and keeps its size |
| `AofLoader.CutRecovery` | origin/redis-5.0.12/src/aof.c:846-901 | for every log without MULTI and every non-zero cut: exactly the longest prefix of complete commands is executed, no format error, and the file is cut at the length of that prefix |
| `AofLoader.CutTransactions` | origin/redis-5.0.12/src/aof.c:801-901 | the same with transactions: the dataset is always that of the committed prefix, and the file is cut at the committed length if and only if the cut is not strictly inside a command of an open transaction |
| `AofLoader.CutInsideTransaction` | origin/redis-5.0.12/src/aof.c:846-881 | the failing case exists: after a cut inside a transaction a MULTI stays in the file although nothing of it was executed |
| `AofLoader.CompleteOfPrinted` | origin/redis-5.0.12/src/aof.c:752-901 | how many complete commands there are in a cut of a printed log is a function of the kept bytes alone |
| `AofLoader.WritesAfterRecovery` | origin/redis-5.0.12/src/aof.c:846-881 | commands appended after such a recovery survive the next load if and only if no dangling MULTI was kept |
| `AofLoader.LoadRefuses` | origin/redis-5.0.12/src/aof.c:765-814 | complete commands followed by something that is no command (no "*", a count below one, something else than "$" where an announced argument should begin) make the server exit with a format error, and followed by a command it does not know with that one, whether aof-load-truncated is set or not |
| `AofLoader.LoadStrict` | origin/redis-5.0.12/src/aof.c:846-910 | without aof-load-truncated a log that was cut loads if and only if the cut is between two commands and no MULTI is open there; otherwise the server exits |
| `AofLoader.LogFile.ReadArgument` | origin/redis-5.0.12/src/aof.c:770-793 | the loop over fgets and fread computes the same as the reading function, and leaves the file position behind the argument |
| `AofLoader.LogFile.ReadOneCommand` | origin/redis-5.0.12/src/aof.c:752-800 | one turn of the loading loop reads exactly the command the reading function reads |
| `AofLoader.LogFile.LoadAppendOnlyFile` | origin/redis-5.0.12/src/aof.c:698-910 | the whole loader: same dataset and outcome as the specification; the file is cut to the valid size if it loads, and left as it is otherwise, as it always is without aof-load-truncated |
| `AofRun.PropagateInv` | origin/redis-5.0.12/src/server.c:2352-2359 | executing and feeding a command keeps the log, the rewrite buffer and the child in step with the dataset |
| `AofRun.WriteOutKeepsLog` | origin/redis-5.0.12/src/aof.c:337-516 | a write with any outcome (full, short, failed; ftruncate working or not) loses, repeats and reorders no byte of file and buffer |
| `AofRun.FlushInv` | origin/redis-5.0.12/src/aof.c:337-516 | flushing keeps the invariant, postponed or not, and also on the exit of appendfsync always |
| `AofRun.FlushWrites` | origin/redis-5.0.12/src/aof.c:355-395 | a flush whose write takes everything empties the buffer into the file, unless an fsync is running under appendfsync everysec, has not kept a flush waiting for two seconds, and the flush is not forced |
| `AofRun.FlushWaits` | origin/redis-5.0.12/src/aof.c:364-373 | in that case nothing is written, and the time of the first such flush is kept |
| `AofRun.FlushFalls` | origin/redis-5.0.12/src/aof.c:412-470 | a short or failed write ends the server under appendfsync always; otherwise the error is noted, and either everything is as before it or the rest stays in the buffer |
| `AofRun.AlwaysFlushes` | origin/redis-5.0.12/src/aof.c:451-458 | under appendfsync always no flush returns with bytes left |
| `AofRun.WritesUntil` | origin/redis-5.0.12/src/aof.c:297-321 | short and interrupted writes are followed by others until all is written or one fails: what gets out is the sum of what was taken, at most all |
| `AofRun.OptionValueIsLast` | origin/redis-5.0.12/src/aof.c:607-617 | of several EX or PX options of a SET the last one counts |
| `AofRun.ForkInv` | origin/redis-5.0.12/src/aof.c:1569-1627 | forking a rewrite keeps the invariant: the selected database is forgotten, so what is fed next can stand behind the snapshot |
| `AofRun.StartInv` | origin/redis-5.0.12/src/aof.c:248-290 | so does turning the log on |
| `AofRun.StopInv` | origin/redis-5.0.12/src/aof.c:234-243 | and turning it off |
| `AofRun.PipeStepKeeps` | origin/redis-5.0.12/src/aof.c:95-123 | every step of the pipes and the child (partial writes, partial reads, stop request, ack, last read), in any order, keeps received + in the pipe + still buffered equal to all bytes fed since the fork |
| `AofRun.RewriteExact` | origin/redis-5.0.12/src/aof.c:1670-1770 | a successful rewrite yields exactly the snapshot followed by all bytes fed since the fork |
| `AofRun.RewriteDoneInv` | origin/redis-5.0.12/src/aof.c:1670-1819 | switching to the new file, or failing to, keeps the invariant |
| `AofRun.RestartRecovers` | origin/redis-5.0.12/src/aof.c:698-910 | after a crash that keeps any prefix of the file, loading gives the state of the committed commands that are complete in it; the file keeps their length, unless the cut is inside a command of a transaction |
| `AofRun.RestartDurable` | origin/redis-5.0.12/src/aof.c:698-910 | for every reachable state and every kept prefix of the file: after the restart the log loads to the dataset if and only if the cut is not inside a command of a transaction, which is a test on the kept bytes |
| `AofRun.TransactionInv` | origin/redis-5.0.12/src/multi.c:106-214 | MULTI, if none is open, and EXEC, with or without a MULTI before it, keep the log, the rewrite buffer and the child in step with the dataset, whatever happened in between |
| `AofRun.ForkInTransaction` | origin/redis-5.0.12/src/multi.c:157-204 | a rewrite that starts between MULTI and EXEC is fed the EXEC without its MULTI, which stays in the old log |
| `AofRun.StepInv` | origin/redis-5.0.12/src/aof.c:337-1819 | every allowed step keeps the invariant |
| `AofRun.RunInv` | origin/redis-5.0.12/src/aof.c:337-1819 | so it holds in every state of every allowed run from boot |
| `AofRun.Durable` | origin/redis-5.0.12/src/aof.c:337-1819 | in every run, with anything between MULTI and EXEC (commands, forks, switching on and off, flushes, crashes), whenever the log is on, the recorded size is that of the file, and loading the file followed by the buffer gives the current dataset; between MULTI and EXEC, with the EXEC behind it |
| `AofRun.RewriteInEveryRun` | origin/redis-5.0.12/src/aof.c:1670-1819 | in every run, a rewrite that ends well makes the file snapshot + everything fed since, and that, with the EXEC that may still be to come, loads to the dataset of the moment |
| `AofRun.RewriteEnds` | origin/redis-5.0.12/src/aof.c:1412-1819 | whatever has been fed and sent, a running rewrite can end: when the child asks, is answered, reads on and is waited for, the file is the snapshot and all bytes fed, no child is left, and a log that waited for it is on |
| `AofRun.FedReachesChild` | origin/redis-5.0.12/src/aof.c:95-123 | while the child rewrites, writes and reads of the pipe that take all bring every byte fed since the fork to the child, and leave none with the parent |
| `AofRun.ScheduledInEveryRun` | origin/redis-5.0.12/src/aof.c:248-290 | in every run, whatever fails, a log that is being switched on has a child that rewrites it, or a rewrite is scheduled |
| `AofRun.SwitchedOnEnds` | origin/redis-5.0.12/src/server.c:1233-1239 | so it becomes on: by the child that is there, or else the timer starts the scheduled rewrite, and that one can end |
| `AofServer.CatAppendOnlyExpireAtCommand` | origin/redis-5.0.12/src/aof.c:550-572 | the printed PEXPIREAT carries the absolute time that the relative one means at the clock |
| `AofServer.ScanSetOptions` | origin/redis-5.0.12/src/aof.c:607-617 | the scan of SET's options finds the last EX and PX, whatever the case |
| `AofServer.BytesToFeed` | origin/redis-5.0.12/src/aof.c:580-630 | the bytes appended are those of SELECT, if the database changed, and of the translated command |
| `AofServer.AofLog.AofWrite` | origin/redis-5.0.12/src/aof.c:297-321 | repeated short writes put a prefix of the buffer in the file, and say how much |
| `AofServer.AofLog.WriteBuffer` | origin/redis-5.0.12/src/aof.c:400-470 | one flush attempt, with its repair by ftruncate, is the step of the run model |
| `AofServer.AofLog.FlushAppendOnlyFile` | origin/redis-5.0.12/src/aof.c:337-516 | flushAppendOnlyFile refines the flush step; a write that takes everything, where nothing stands against it, empties the buffer, and under appendfsync always whatever does not end the server does |
| `AofServer.AofLog.SwitchFile` | origin/redis-5.0.12/src/aof.c:1735-1790 | the rename and the new descriptor refine the switch step |
| `AofServer.AofRewrite.AofRewriteBufferAppend` | origin/redis-5.0.12/src/aof.c:125-169 | the blocks, read in order, gain exactly the new bytes, however they straddle block ends |
| `AofServer.AofRewrite.AofChildWriteDiffData` | origin/redis-5.0.12/src/aof.c:95-123 | exactly the bytes that the reported writes took, up to the first that took nothing, move from the blocks to the pipe in order; after the stop request nothing is sent |
| `AofServer.SendsAll` | origin/redis-5.0.12/src/aof.c:95-123 | if every write takes at least a byte, enough writes send all blocks |
| `AofServer.AofRewrite.AofRewriteBufferWrite` | origin/redis-5.0.12/src/aof.c:174-194 | what is left of the buffer goes to the file whole if and only if every block was written in full |
| `AofServer.AofRewrite.AofChildPipeReadable` | origin/redis-5.0.12/src/aof.c:1486-1507 | a stop request is noted and acknowledged |
| `AofServer.AofRewrite.AofReadDiffFromParent` | origin/redis-5.0.12/src/aof.c:1287-1297 | the child takes what the pipe holds, in order |
| `AofServer.AofRewrite.ChildAskToStop` | origin/redis-5.0.12/src/aof.c:1436-1437 | one stop request goes to the parent, once the snapshot is written |
| `AofServer.AofRewrite.ChildFinalize` | origin/redis-5.0.12/src/aof.c:1412-1470 | after the ack the child has read all that the pipe held and ends well; after any other byte it fails |
| `AofServer.AofRewrite.KillAppendOnlyChild` | origin/redis-5.0.12/src/aof.c:213-230 | a killed child leaves no rewrite behind |
| `AofServer.AofRewrite.AofCreatePipes` | origin/redis-5.0.12/src/aof.c:1514-1540 | new pipes are empty and no stop request is pending |
| `AofServer.AofServer.FeedAppendOnlyFile` | origin/redis-5.0.12/src/aof.c:580-644 | feeding extends the buffer if the log is on, and the rewrite blocks if a child is running, by the same bytes |
| `AofServer.AofServer.Propagate` | origin/redis-5.0.12/src/server.c:2352-2359 | a command reaches the log unless it is off |
| `AofServer.AofServer.ExecCommand` | origin/redis-5.0.12/src/multi.c:116-204 | the loop over the queued commands takes the steps of a run: MULTI before the first command that may write, the commands, also those that start a rewrite or switch the log on or off, and EXEC if MULTI was fed; an exit in between ends it; if all are on the data, dataset and buffer are those of TransactionFed |
| `AofServer.AofServer.BgrewriteaofCommand` | origin/redis-5.0.12/src/aof.c:1629-1640 | the fork step, the note for later, or nothing, as the children that run decide |
| `AofServer.NextQueued` | origin/redis-5.0.12/src/multi.c:162-185 | the events of the whole transaction, from any command on, are those of this command and then those of the rest from the state it leaves |
| `AofServer.TransactionFed` | origin/redis-5.0.12/src/multi.c:162-204 | a transaction of commands on the data changes the dataset as its changing commands do one after the other; log and child are fed exactly these, translated and with SELECT where the database changes, MULTI before the first that may write, and then EXEC |
| `AofServer.RewriteInExec` | origin/redis-5.0.12/src/aof.c:1629-1640 | BGREWRITEAOF among them: nothing, a note for later, or a child with the dataset as it is there, to which exactly what comes behind is fed |
| `AofServer.SwitchOnInExec` | origin/redis-5.0.12/src/aof.c:248-290 | CONFIG SET appendonly yes among them: nothing if the log is on or does not open, a scheduled rewrite during an RDB save, or a rewrite in place of the one that was there |
| `AofServer.SwitchOffInExec` | origin/redis-5.0.12/src/aof.c:234-243 | CONFIG SET appendonly no among them: what was fed before is flushed, and unless that ends the server the log is off, without a rewrite, for what comes behind |
| `AofServer.AofServer.RewriteAppendOnlyFileBackground` | origin/redis-5.0.12/src/aof.c:1569-1627 | the fork refines the fork step |
| `AofServer.AofServer.ServerCron` | origin/redis-5.0.12/src/server.c:1233-1239 | a scheduled rewrite starts if and only if nothing is saved or rewritten and the fork works |
| `AofServer.AofServer.StartAppendOnly` | origin/redis-5.0.12/src/aof.c:248-290 | startAppendOnly refines its step |
| `AofServer.AofServer.StopAppendOnly` | origin/redis-5.0.12/src/aof.c:234-243 | stopAppendOnly refines its step: last flush, then off |
| `AofServer.AofServer.BackgroundRewriteDoneHandler` | origin/redis-5.0.12/src/aof.c:1670-1819 | the handler refines the step that ends a rewrite, and switches to the new file if and only if the child ended well, the file could be opened and renamed and every block was written in full |
| `AofRewrite.StartBatch` | origin/redis-5.0.12/src/aof.c:940-955 | the count in a batch's header is the number of arguments that follow it |
| `AofRewrite.RewriteItems` | origin/redis-5.0.12/src/aof.c:932-962 | the loop that opens a batch every so many items emits exactly the batches, for lists, sets, sorted sets and hashes and any positive batch size |
| `AofRewrite.RewriteObject` | origin/redis-5.0.12/src/aof.c:932-1132 | each object is written as its own commands |
| `AofRewrite.RewriteAppendOnlyFileRio` | origin/redis-5.0.12/src/aof.c:1299-1367 | the walk over databases and keys writes SELECT, the objects and their expiries |
| `AofRewrite.ReplayBatches` | origin/redis-5.0.12/src/aof.c:932-1132 | replaying batches of items builds the same as all items at once |
| `AofRewrite.ReplayObject` | origin/redis-5.0.12/src/aof.c:932-1132 | replaying an object's commands rebuilds its value |
| `AofRewrite.ReplayRio` | origin/redis-5.0.12/src/aof.c:1299-1367 | replaying the walk adds every entry of every database, and nothing else |
| `AofRewrite.RewriteRebuilds` | origin/redis-5.0.12/src/aof.c:1299-1367 | the rewritten commands on an empty server rebuild every value and expiry, for any positive batch size and iteration order |
| `AofRewrite.RewriteIsSnapshot` | origin/redis-5.0.12/src/aof.c:1299-1367 | so the child writes a snapshot in the sense the runs of AofRun need |
| `AofRewrite.TranslationPreservesMeaning` | origin/redis-5.0.12/src/aof.c:589-630 | EXPIRE, PEXPIRE, EXPIREAT, SETEX, PSETEX and SET with EX or PX mean the same as the commands logged for them |
| `AofRewrite.RedisIsLawful` | origin/redis-5.0.12/src/aof.c:589-630 | so the concrete dataset meets the law that Durable assumes |
| `Buffers.Append` | 3rd/predixy/src/Buffer.cpp:52-75 | the chain gains exactly the data, over as many new buffers as needed, and earlier buffers stay |
| `Buffers.Segment.Set` | 3rd/predixy/src/Buffer.cpp:172-186 | the segment's bytes are the data, its cursor is at the start; the other segments in the same buffers keep bytes and cursors |
| `Buffers.AppendBeside` | 3rd/predixy/src/Connection.cpp:17-38 | more bytes behind the segments in a buffer, or in new buffers linked to it: every segment keeps its bytes and its cursor |
| `Places.ReadGrows` | 3rd/predixy/src/Connection.cpp:17-38 | a read, into the last buffer or a new one, stands behind all earlier bytes and moves none of them |
| `Buffers.Segment.Fill` | 3rd/predixy/src/Buffer.cpp:246-271 | the vectors are consecutive pieces of what is left from the cursor on, and `all` says that they reach the end |
| `Buffers.Segment.Use` | 3rd/predixy/src/Buffer.cpp:305-325 | the cursor moves by the count across buffers; the bytes stay |
| `Buffers.Segment.Seek` | 3rd/predixy/src/Buffer.cpp:327-331 | the cursor is the given place plus the count |
| `Buffers.Segment.Cut` | 3rd/predixy/src/Buffer.cpp:274-302 | the first bytes go, and a cursor inside them moves to the new start |
| `Buffers.Segment.Length` | 3rd/predixy/src/Buffer.cpp:216-232 | the length is that of the bytes over all buffers |
| `Buffers.Segment.Get` | 3rd/predixy/src/Buffer.cpp:234-244 | a non-empty prefix of what is left if and only if something is left |
| `ClientOutput.ConsumeIsSuffix` | 3rd/predixy/src/Buffer.cpp:246-331 | taking n bytes off a list of segments leaves the bytes from n on, none skipped or repeated at a boundary |
| `ClientOutput.DataIsPending` | 3rd/predixy/src/AcceptConnection.cpp:56-91 | the bytes of a vector are the first of the pending bytes |
| `ClientOutput.FillResponse` | 3rd/predixy/src/Response.cpp:168-181 | head and body become entries along the pending bytes; exactly the entry that ends the reply carries the request |
| `ClientOutput.AcceptConnection.Fill` | 3rd/predixy/src/AcceptConnection.cpp:56-91 | the vector covers the pending bytes from the first on without gap, up to the first unanswered request or the limit |
| `ClientOutput.AcceptConnection.Write` | 3rd/predixy/src/AcceptConnection.cpp:93-136 | after any short write the cursors are that many bytes on, and a request is popped if and only if its reply is out |
| `ClientOutput.AcceptConnection.WriteOnce` | 3rd/predixy/src/AcceptConnection.cpp:37-136 | one fill and write sends exactly what writev took of the vector, the first pending bytes; every reply still queued has bytes left |
| `ClientOutput.AcceptConnection.WriteEvent` | 3rd/predixy/src/AcceptConnection.cpp:37-54 | over all turns: exactly what each writev took of its vector is sent, the rest stays pending, turns go on while vectors are full and taken in full, only done requests are popped; it reports success if and only if the last vector was empty or taken in full, and then every reply before the first unanswered request is out |
| `ClientOutput.AcceptConnection.Push` | 3rd/predixy/src/AcceptConnection.cpp:157-192 | a new request changes nothing that is pending |
| `ClientOutput.AcceptConnection.Answer` | 3rd/predixy/src/Request.cpp:340-396 | a reply enters the stream at its request's place, also before later replies; nothing sent or pending changes otherwise |
| `ClientOutput.AcceptConnection.Grow` | 3rd/predixy/src/ConnectConnection.cpp:113-133 | bytes read into the buffer in which queued replies end, or in new buffers behind it, change no pending byte |
| `ClientOutput.AcceptConnection.Respond` | 3rd/predixy/src/Response.cpp:58-105 | a reply made at the end of the buffer that queued replies lie in enters the stream at its place |
| `ClientOutput.AcceptConnection.Drop` | 3rd/predixy/src/AcceptConnection.cpp:56-91 | a request that is done without a reply sends nothing and holds up nobody |
| `ClientOutput.AcceptConnection.SentInOrder` | 3rd/predixy/src/AcceptConnection.cpp:37-136 | in every state, what was sent is a prefix of all replies in request order and holds the whole replies of the popped requests; what is pending is the rest |
| `ClientOutput.AcceptConnection.SentUpTo` | 3rd/predixy/src/AcceptConnection.cpp:56-91 | no byte is sent of what stands behind the first unanswered request, and when no reply stands before it, all that did is sent |
| `ClientRun.Serve` | 3rd/predixy/src/AcceptConnection.cpp:37-192 | for every run of requests, replies in any order, growing buffers and writev results: the bytes sent are always a prefix of the replies in request order; each time the client can be written to, exactly what it takes is sent, and as long as it takes all, every reply before the first unanswered request and its request are gone |
| `ReplyFormat.ReadReply` | 3rd/predixy/src/ResponseParser.cpp:31-259 | the automaton takes a printed reply to its last byte if and only if its non-empty arrays nest at most 8 deep and hold no null array; else it fails inside |
| `ReplyFormat.ReadExactly` | 3rd/predixy/src/ResponseParser.cpp:31-259 | with any bytes behind the reply it stops at the reply's end |
| `ReplyFormat.PrefixFree` | 3rd/predixy/src/ResponseParser.cpp:31-259 | no printed reply is the beginning of another one, whatever follows, also where arrays nest deeper than the parser goes |
| `ReplyFormat.HowMany` | 3rd/predixy/src/ResponseParser.cpp:165-258 | so a row of printed replies is cut into as many in only one way, and what is left after some of them begins with the tag of the next |
| `ReplyFormat.NotOverBefore` | 3rd/predixy/src/ResponseParser.cpp:31-259 | no proper prefix of a reply is taken for a reply |
| `ReplyFormat.RunSplit` | 3rd/predixy/src/ResponseParser.cpp:31-259 | the result does not depend on how the bytes are cut into buffers |
| `ReplyFormat.ReadElement` | 3rd/predixy/src/ResponseParser.cpp:165-258 | an element inside arrays completes itself and every array it is the last element of |
| `ReplyFormat.RunSound` | 3rd/predixy/src/ResponseParser.cpp:223-245 | in every reachable state each open array has room for an element and at most 8 are open |
| `ReplyFormat.WireBytes` | 3rd/predixy/src/ResponseParser.cpp:38-63 | the tags, lengths and line ends of each kind of printed reply |
| `ReplyGrammar.Accepts` | 3rd/predixy/src/ResponseParser.cpp:31-259 | the automaton ends with a reply at a byte if and only if the bytes up to there are one in a grammar of its own: tag and text, numbers of digits with at most one minus anywhere, announced lengths with line ends, arrays of as many elements as announced, at most 8 deep; so everything else fails or is not over |
| `ResponseParser.Parser.CloseArrays` | 3rd/predixy/src/ResponseParser.cpp:230-241 | the loop over the stack arrays closes exactly the completed levels |
| `ResponseParser.Parser.SubStringBytes` | 3rd/predixy/src/ResponseParser.cpp:212-222 | skipping a bulk body inside an array is the same as reading it byte by byte |
| `ResponseParser.Parser.StringBytes` | 3rd/predixy/src/ResponseParser.cpp:134-146 | so is skipping a bulk reply's body |
| `ResponseParser.Parser.Parse` | 3rd/predixy/src/ResponseParser.cpp:31-259 | parse refines the automaton: status, position, begin and end of the segment, for every state it is resumed in; after a reply, without a reset, every byte is an error |
| `ReplyReader.RepliesOfPrinted` | 3rd/predixy/src/ConnectConnection.cpp:140-160 | a stream of printed replies is cut where the printer ended them |
| `ReplyReader.RepliesSplit` | 3rd/predixy/src/ConnectConnection.cpp:113-160 | cutting goes on across reads |
| `ReplyReader.Connection.Send` | 3rd/predixy/src/ConnectConnection.cpp:92-107 | a sent request waits behind the others |
| `ReplyReader.Connection.ReadEvent` | 3rd/predixy/src/ConnectConnection.cpp:113-160 | after every read, for any number of waiting requests: the recorded segments are exactly the complete replies, at most as many as requests were sent; the connection fails if and only if the bytes are no reply or there is more than one reply too many, and after one too many at the next byte, even if a request was sent in between |
| `ReplyReader.Connection.HandleResponse` | 3rd/predixy/src/ConnectConnection.cpp:207-218 | the reply goes to the request that has waited longest; without one the parser is not reset |
| `ReplyReader.Connection.ResponsesAreReplies` | 3rd/predixy/src/ConnectConnection.cpp:113-219 | for every cutting into reads and every order of sends and reads: each recorded segment holds exactly the bytes of its reply, with its type and integer, and the i-th reply answers the i-th request sent; an unfinished reply, and one that nobody asked for, is not recorded |
| `RequestFormat.FixedHeadIsHeader` | 3rd/predixy/src/Request.cpp:18-37 | each fixed head is the beginning of a command of that name with one key, or one key and value |
| `RequestFormat.CutsAppend` | 3rd/predixy/src/RequestParser.cpp:70-445 | the pieces do not depend on how the stream is chunked |
| `RequestFormat.CommandPieces` | 3rd/predixy/src/RequestParser.cpp:37-68 | a printed command of many keys comes out as one piece per key or pair, in order, if it is to be split, and whole otherwise |
| `RequestFormat.PieceIsCommand` | 3rd/predixy/src/Request.cpp:113-155 | fixed head and piece together are the printed command for the key or pair alone |
| `RequestFormat.AfterName` | 3rd/predixy/src/RequestParser.cpp:481-503 | the table: after count and name the arguments are read if and only if there is at least one key, pairs for MSET and MSETNX, any number for PUNSUBSCRIBE and UNSUBSCRIBE, and at most the maximum; otherwise the command is invalid |
| `RequestFormat.WhenSplit` | 3rd/predixy/src/RequestParser.cpp:58-68 | commands that subscribe are always split, the others if the server is told to, and one key or pair never |
| `RequestGrammar.Accepts` | 3rd/predixy/src/RequestParser.cpp:70-445 | the parser has taken all bytes and waits for a command if and only if they are commands of many keys in a grammar of its own: count, name in any case and arguments, each with its length in front and its line end behind |
| `RequestKeys.KeyedAppend` | 3rd/predixy/src/RequestParser.cpp:37-55 | where keys are seen does not depend on how the stream is chunked |
| `RequestKeys.KeysOfCommand` | 3rd/predixy/src/RequestParser.cpp:37-68 | from a printed command, the offsets taken as the key of each piece, or of the whole command, are exactly those of its first argument, after any bytes |
| `RequestParser.Parser.BodyBytes` | 3rd/predixy/src/RequestParser.cpp:379-402 | skipping an argument is the same as reading it byte by byte, and the key begins and ends at the places of its bytes |
| `RequestParser.Parser.Parse` | 3rd/predixy/src/RequestParser.cpp:70-445 | parse refines the automata up to the end of a piece, of a command or of the buffer: the bytes of the request, and the buffers and positions where the request and its key begin and end, for every state it is resumed in |
| `RequestParser.ClientInput.Parse` | 3rd/predixy/src/AcceptConnection.cpp:157-192 | the loop over a buffer makes one request of each piece, with leader and follower count as Request::set leaves them, whose segment holds the bytes of the piece and whose key segment those of its key |
| `RequestParser.ClientInput.ReadEvent` | 3rd/predixy/src/AcceptConnection.cpp:138-155 | the same for a read into the last buffer or a new one; earlier requests keep their bytes and keys |
| `RequestParser.SplitCommand` | 3rd/predixy/src/AcceptConnection.cpp:157-192 | a split command leaves requests that are sent as well-formed commands for its keys or pairs in order, all of its command and knowing the first as leader, whose follower count is their number |
| `RequestParser.WholeCommand` | 3rd/predixy/src/AcceptConnection.cpp:175-188 | a command that is not split is one request with the bytes that came |
| `RequestReads.OnAppend` | 3rd/predixy/src/AcceptConnection.cpp:157-163 | pieces and keys, with the decision about splitting made for each read, do not depend on further cuts |
| `RequestParser.ClientInput.ReadAll` | 3rd/predixy/src/AcceptConnection.cpp:138-192 | read after read, each with its own decision about splitting, makes the requests and the keys of the concatenated bytes |
| `RequestParser.ClientInput.ReadCommands` | 3rd/predixy/src/AcceptConnection.cpp:138-192 | any stream of printed commands, cut into any reads of which none changes the decision inside a command, becomes exactly the requests of its commands, split or whole as decided for each, in order, each routed by the first argument of its piece; the parser is at its start |
| `RequestParser.SwitchedRight` | 3rd/predixy/src/AcceptConnection.cpp:157-192 | if the decision changes once between two arguments of a command of keys, its requests are those of a split or of a whole command if and only if the change is before the first argument or after the last; going off in between, the leader counts all keys while fewer requests come, and going on, the first keys are lost |
| `ReplyMerge.CountIsSum` | 3rd/predixy/src/Request.cpp:371-381 | DEL, EXISTS, TOUCH and UNLINK end as one integer; it is the sum of the positive integer replies if and only if the number kept with the reply that arrived first is what that reply contributes |
| `ReplyMerge.FirstBulkCounts` | 3rd/predixy/src/Request.cpp:371-381 | a concrete case where it is not: a bulk string arriving first is counted with its length |
| `ReplyMerge.CountInAnyOrder` | 3rd/predixy/src/Response.cpp:126-138 | the same replies in any order give the same reply, if each counts for what it says |
| `ReplyMerge.MsetReply` | 3rd/predixy/src/Request.cpp:349-357 | MSET ends with an error if and only if some piece failed, and then with the first |
| `ReplyMerge.MsetnxReply` | 3rd/predixy/src/Request.cpp:358-367 | MSETNX ends with the bytes of an error if there is one, else of a 0, else of a 1 |
| `ReplyMerge.MgetReply` | 3rd/predixy/src/Response.cpp:107-125 | if each array that answers a piece has one element, the output of MGET is one array of as many elements as keys, in key order, with nil for pieces that failed |
| `ReplyMerge.MgetExactly` | 3rd/predixy/src/Response.cpp:107-125 | whatever printed replies the servers give to the pieces: the output is one array of as many elements as keys if and only if no reply is a null array or longer than nine elements and all together have as many as there are keys |
| `ReplyMerge.OneEach` | 3rd/predixy/src/Response.cpp:107-125 | what a piece contributes is one element if and only if its reply is no array or one of length one |
| `ReplyMerge.EmptyArrayCounts` | 3rd/predixy/src/Response.cpp:107-125 | the failing case exists: an empty array in answer to one of two keys; and if the other key gets two elements, the array is whole again with each value at another key |
| `ReplyMerge.Response.AdjustForLeader` | 3rd/predixy/src/Response.cpp:107-143 | in place, on the arriving reply and the leader's |
| `ReplyMerge.Request.SetResponse` | 3rd/predixy/src/Request.cpp:340-396 | the leader keeps, replaces or completes its reply; a piece of MGET keeps its own |
| `ReplyMerge.Request.HandleResponse` | 3rd/predixy/src/Handler.cpp:835-838 | both together are the merge function |
| `ReplyMerge.Pieces.Arrive` | 3rd/predixy/src/Handler.cpp:835-838 | after any arrivals the objects hold the merge of the replies in arrival order |
| `ReplyMerge.Pieces.MergedDone` | 3rd/predixy/src/Request.cpp:398-414 | the leader of a merged reply is done if and only if all its pieces are; any other piece, and each piece of MGET or a subscription, if and only if its own reply is there |
| `ReplyMerge.Pieces.constructor` | 3rd/predixy/src/Request.cpp:113-173 | the requests that a split command leaves are linked as their merging needs |
| `ReplyMerge.Collect` | 3rd/predixy/src/Handler.cpp:835-838 | from the requests of a split command, any distinct pieces answered in any order leave the objects with the merge of these replies |
| `ReplyMerge.Pieces.MgetDone` | 3rd/predixy/src/Response.cpp:107-125 | whatever order such replies to an MGET came in, the bytes its requests send one after the other are the printed array of the values in key order |
| `ReplyMerge.Pieces.MgetExact` | 3rd/predixy/src/Response.cpp:107-125 | for all printed replies, in whatever order they came: the requests are done, and what they send is one array of as many elements as keys exactly under the condition of MgetExactly |
| `ReplyMerge.Pieces.CountReplied` | 3rd/predixy/src/Request.cpp:371-381 | once all pieces of a DEL, EXISTS, TOUCH or UNLINK are answered, each counting for what it says, the leader is done and sends the printed sum of the integers |
| `Blocked.OnceEach` | origin/redis-5.0.12/src/blocked.c:522-563 | a client is in a key's list if and only if it holds the key, and then once |
| `Blocked.Server.BlockForKeys` | origin/redis-5.0.12/src/blocked.c:522-563 | the client joins the tail of the list of every key once, with its own node and the id it asked for remembered; index and counts stay exact, and nobody who can be served is forgotten |
| `Blocked.Server.constructor` | origin/redis-5.0.12/src/server.c:2059-2105 | at the start everything is empty and in order |
| `Blocked.Server.BlockClient` | origin/redis-5.0.12/src/blocked.c:117-122 | the counts stay exact |
| `Blocked.Server.UnblockClientWaitingData` | origin/redis-5.0.12/src/blocked.c:567-600 | the client leaves every list, no empty list stays, the others keep their order |
| `Blocked.Server.UnblockClient` | origin/redis-5.0.12/src/blocked.c:177-197 | the client is in no list, counted out, and queued for reprocessing at most once |
| `Blocked.Server.QueueClientForReprocessing` | origin/redis-5.0.12/src/blocked.c:166-173 | queued unless it is |
| `Blocked.Server.ProcessUnblockedClients` | origin/redis-5.0.12/src/blocked.c:127-147 | the queue is emptied, and the input of exactly the clients not blocked again is processed |
| `Blocked.Server.SignalKeyAsReady` | origin/redis-5.0.12/src/blocked.c:610-631 | a key is in the dictionary if and only if it is queued, once |
| `Blocked.Server.DbAdd` | origin/redis-5.0.12/src/db.c:173-182 | a new list or sorted set never leaves its waiting clients unnoticed; a new stream does if and only if one waits for an id before its last entry and the key is not queued |
| `Blocked.Server.AddClient` | origin/redis-5.0.12/src/networking.c:86-160 | a new client waits for nothing |
| `Blocked.Server.FreeClient` | origin/redis-5.0.12/src/networking.c:836-885 | a client that goes leaves every list, the counts and the queue of unblocked clients |
| `Blocked.Server.DbDelete` | origin/redis-5.0.12/src/db.c:271-288 | deleting a key starves nobody |
| `Blocked.Server.Change` | origin/redis-5.0.12/src/t_list.c:196-230 | a change of a stored value into one of its type starves nobody |
| `Blocked.Server.SetKey` | origin/redis-5.0.12/src/db.c:173-225 | storing over any key keeps waiting clients noticed if and only if it does not overwrite a key, or add a stream, not queued, for whose new value somebody waits |
| `Blocked.Server.XAdd` | origin/redis-5.0.12/src/t_stream.c:1312-1316 | an entry queues its key if somebody waits there and some client waits for streams |
| `Blocked.Overwritten` | origin/redis-5.0.12/src/db.c:189-225 | the exact condition under which storing without a signal forgets a waiting client |
| `Blocked.OverwriteForgets` | origin/redis-5.0.12/src/sort.c:565-567 | the failing case exists: SORT with STORE over a string for which a client waits in BLPOP signals no key |
| `Blocked.Server.ServeOnList` | origin/redis-5.0.12/src/t_list.c:628-683 | the element goes to the client, to the front of the target list, or the client is refused |
| `Blocked.Server.ServeHead` | origin/redis-5.0.12/src/blocked.c:304-336 | one client gets the element at the end it asked for; if refused, the list is as before; no element is lost |
| `Blocked.Server.ServeList` | origin/redis-5.0.12/src/blocked.c:286-350 | exactly the first clients that wait for a list are served, in blocking order, until no element is left; the others keep their order behind; all elements are conserved |
| `Blocked.Server.ServeZset` | origin/redis-5.0.12/src/blocked.c:353-400 | the same for sorted sets, one member each |
| `Blocked.Server.ServeStream` | origin/redis-5.0.12/src/blocked.c:403-473 | exactly the clients that wait for earlier ids than the last are served; the others keep their places, and none of them waits for an id that was given out |
| `Blocked.Server.ServeReady` | origin/redis-5.0.12/src/blocked.c:272-478 | a ready key leaves the dictionary, and who waits for what it holds is served, by its type; clients of other keys and streams are left alone |
| `Blocked.Server.HandleClientsBlockedOnKeys` | origin/redis-5.0.12/src/blocked.c:261-484 | the rounds end, because a round that makes keys ready has unblocked a client; then no key is ready, no client is left waiting for a list, sorted set or entry that is there, and at a stream that was ready none whose id is before the last; elements are conserved; clients stop waiting only with one answer for a key of their own, or because a stream of theirs has gone past their id |
| `BlockedLists.BlockingKeys.Enter` | origin/redis-5.0.12/src/blocked.c:546-560 | in the map of lists on the heap: the new node is the last of its key, in a new list if there was none; every other list keeps its nodes |
| `BlockedLists.BlockingKeys.Exit` | origin/redis-5.0.12/src/blocked.c:580-585 | the node itself leaves its list, which goes with its last node; every other list keeps its nodes |
| `BlockedLists.Waiting.BlockForKeys` | origin/redis-5.0.12/src/blocked.c:522-563 | every key is remembered once, with the id that was asked for first and the real node, which is the last in its list; each client still remembers its own nodes, and every node is remembered |
| `BlockedLists.Waiting.UnblockClientWaitingData` | origin/redis-5.0.12/src/blocked.c:567-600 | by the remembered nodes the client leaves all its lists, whatever came before and behind it; the others stay in order |
| `BlockedLists.Waiting.RotateHeadToTail` | origin/redis-5.0.12/src/blocked.c:302-311 | after a rotation every remembered node is still the right one |
| `BlockedLists.SameAfterBlocking` | origin/redis-5.0.12/src/blocked.c:522-563 | blocking in the model with numbered nodes and in the one with linked lists leaves the same clients in the same order |
| `BlockedLists.SameAfterUnblocking` | origin/redis-5.0.12/src/blocked.c:567-600 | and so does unblocking |
| `BlockedRun.Step` | origin/redis-5.0.12/src/blocked.c:117-631 | each event of a client or key changes the state exactly as it should and keeps index, counts and queues |
| `BlockedRun.Run` | origin/redis-5.0.12/src/blocked.c:117-631 | in every run from the empty server, each state follows from the one before; index, counts and queues are in order in all, and after the ready keys are served nobody waits for what is there, up to an event that stores a value as in Overwritten |
| `BlockedRun.ForgettingRun` | origin/redis-5.0.12/src/sort.c:565-567 | such an event is reached: a client connects and blocks on a list, a string is stored at its key and a list over that; then no key is ready and the client waits for the list that is there |
| `BlockedRun.ForgettingRename` | origin/redis-5.0.12/src/db.c:869-905 | and so is this one: a client waits in XREAD for a missing key, and RENAME puts a stream with entries there; no key is ready, and the client goes on waiting |
| `AdList.List.AddNodeHead` | origin/redis-5.0.12/src/adlist.c:88-106 | the new node comes first; all links, head, tail and length agree with the sequence |
| `AdList.List.AddNodeTail` | origin/redis-5.0.12/src/adlist.c:114-132 | the new node comes last |
| `AdList.List.InsertNode` | origin/redis-5.0.12/src/adlist.c:134-160 | the new node stands right before or after the given one |
| `AdList.List.DelNode` | origin/redis-5.0.12/src/adlist.c:167-180 | the node leaves, the others keep identity and order, and its own links still lead to its neighbours |
| `AdList.List.RotateTailToHead` | origin/redis-5.0.12/src/adlist.c:330-342 | the last node becomes the first |
| `AdList.List.RotateHeadToTail` | origin/redis-5.0.12/src/adlist.c:345-357 | the first node becomes the last |
| `AdList.List.Join` | origin/redis-5.0.12/src/adlist.c:361-376 | the other list's nodes follow, and the other list is empty |
| `AdList.List.Dup` | origin/redis-5.0.12/src/adlist.c:250-279 | new nodes with the same values, the original unchanged |
| `AdList.List.Index` | origin/redis-5.0.12/src/adlist.c:315-327 | the node at the index from the head, or from the tail for negative ones, or none |
| `AdList.Iter.RewindTail` | origin/redis-5.0.12/src/adlist.c:210-213 | from the tail, in the other direction |
| `AdList.Iter.Next` | origin/redis-5.0.12/src/adlist.c:229-240 | the node it was at, and on to the next in its direction |
| `AdList.ForEach` | origin/redis-5.0.12/src/adlist.c:215-240 | iterating from the head and deleting the node just returned visits every original node exactly once and keeps exactly the others |
| `BitOps.ReduceCounts` | origin/redis-5.0.12/src/bitops.c:69-89 | the three masked steps on a 32-bit word leave in each byte the number of its set bits, and never overflow |
| `BitOps.SpreadTop` | origin/redis-5.0.12/src/bitops.c:83-89 | the bytes of seven such words add up to at most 56 each and 224 in all, so that the multiplication carries nothing into or out of the byte that is kept |
| `BitOps.Popcount` | origin/redis-5.0.12/src/bitops.c:40-92 | for every string and alignment, the number of set bits |
| `BitOps.Bitpos` | origin/redis-5.0.12/src/bitops.c:101-186 | for every string, alignment and bit, the first such bit of the string padded with zeros, at most the length in bits; -1 exactly when ones are looked for and there is none; the loop always ends with a find, never at the panic |
| `BitField.SetUnsigned` | origin/redis-5.0.12/src/bitops.c:209-222 | the field holds the binary digits of the value, and no other bit changes |
| `BitField.GetUnsigned` | origin/redis-5.0.12/src/bitops.c:229-241 | the number whose binary digits the field holds |
| `BitField.ReadBack` | origin/redis-5.0.12/src/bitops.c:209-241 | reading back gives the value modulo two to the width, and every other field as it was |
| `BitField.GetSigned` | origin/redis-5.0.12/src/bitops.c:243-263 | the field read in two's complement, for widths 1 to 63 |
| `BitField.ValueWritten` | origin/redis-5.0.12/src/bitops.c:224-263 | writing any 64-bit number and reading back gives its residue that fits, signed or not |
| `BitField.ResidueInRange` | origin/redis-5.0.12/src/bitops.c:224-263 | which is the number itself when it fits |
| `BitField.CheckUnsigned` | origin/redis-5.0.12/src/bitops.c:288-323 | non-zero if and only if the sum does not fit; the limit is the residue or the end of the range that was passed |
| `BitField.CheckSigned` | origin/redis-5.0.12/src/bitops.c:325-375 | the same for signed fields |
| `BitField.WrapSigned` | origin/redis-5.0.12/src/bitops.c:357-374 | masking the 64-bit sum gives the residue that fits |
| `BitField.IncrBy` | origin/redis-5.0.12/src/bitops.c:1018-1087 | the field reads back as the exact sum if it fits, else as its residue, the end of the range or unchanged, as the overflow type says; no other bit changes |
| `Crc64.TableIsDivision` | origin/redis-5.0.12/src/crc64.c:42-171 | each of the 256 entries of the table is the division of its index, as a byte, by the polynomial, bit by bit |
| `Crc64.Checksum` | origin/redis-5.0.12/src/crc64.c:173-181 | the table-driven loop computes the bitwise division of the string, for every seed |
| `Crc64.CheckValue` | origin/redis-5.0.12/src/crc64.c:1-28 | the checksum of "123456789" is the check value |
| `Crc64.CrcCompose` | origin/redis-5.0.12/src/crc64.c:173-181 | the checksum of a concatenation is that of the second part from that of the first |
| `Crc64.CrcLinear` | origin/redis-5.0.12/src/crc64.c:173-181 | on strings of one length the checksum is linear in seed and bytes |
| `Crc64.SeedOnce` | origin/redis-5.0.12/src/crc64.c:173-181 | behind the same bytes, different checksums stay different |
| `Crc64.BurstDetected` | origin/redis-5.0.12/src/crc64.c:173-181 | strings that differ only inside some eight consecutive bytes never have the same checksum |
| `DataCenter.Interval` | 3rd/predixy/src/String.h:73-77 | whatever lies between a string and its extension in the order extends it too |
| `DataCenter.CommonPrefix` | 3rd/predixy/src/String.h:113-121 | the longest common prefix |
| `DataCenter.DataCenter.AddPrefix` | 3rd/predixy/src/DC.cpp:40-46 | a prefix is added in order, unless it is there |
| `DataCenter.DataCenter.GetDC` | 3rd/predixy/src/DC.cpp:64-79 | the entry of the longest configured prefix of the address, none if and only if there is none; the probe shrinks at every turn |

## Left out

- The RDB preamble of an append-only file, streams and modules in a rewrite, and replication: their encoders are elsewhere.
- Sorted set scores are the text the server prints for them; that this text reads back as the same number is not modelled.
- In the runs of AofRun, fsync's own bookkeeping and latency; a postponed flush is a step like any other. WATCH, and the reasons for which EXEC runs nothing.
- Failures of open, rename, fseek and of the pipes other than short transfers; EINTR; installing and removing event handlers.
- AofLoader: counts and lengths that overflow long or are negative end in an outcome of their own instead of undefined behaviour; nested MULTI and DISCARD in a log are not modelled, since the server logs neither.
- AofServer.ScanSetOptions: reads an option's value past the last argument as absent, where the source would read beyond the vector.
- Arity checks before execution, and access to keys by commands other than those that rewriting and expiry translation need.
- Blocked clients of type WAIT and module; consumer groups of streams (a client of a group waits for an id like the others). Of a stream the model has the last id given out and the last one that is still there, not the entries.
- Blocked: serving is proved on lists of numbered nodes; on linked lists with the nodes as handles, joining, leaving and rotating (BlockedLists).
- Blocked.Server.ProcessUnblockedClients: processing a client's input inside the loop is not modelled; what it does to keys and clients are events of their own in BlockedRun.
- Reference counts and allocator caches.
- Handling of requests from inside fill, logging, and releasing a popped request's segments.
- ClientOutput: a reply's body is taken to be non-empty when it is attached. Only what is left of an empty array in answer to a piece of MGET is not (`ReplyMerge.EmptyArrayCounts`).
- ClientRun: one chain of buffers grows at a time; Grow and Respond are stated for any chain, so for one per server connection.
- The parsers' numbers are unbounded: wrap-around of the 32 and 64 bit counters, and the narrowing of a bulk length to int, are not modelled.
- ReplyReader: a new, unlinked buffer between replies is modelled like a linked one; a segment never crosses such a place, since it begins inside a reply.
- ReplyReader: subscriptions, whose messages put a request of their own first; closing, which answers the waiting requests with an error.
- RequestParser.SwitchedRight: one change, between two arguments, of a command whose arguments are all keys; what a change inside an argument or between a key and its value does is computed by CutsOn and KeyedOn like any other, but not summed up.
- RequestParser: inline commands, commands outside the table of many keys (their KeyTag to ArgBodyLF states do not split), what follows an invalid command (also one of the table with a wrong number of arguments), and SCRIPT LOAD.
- ReplyMerge: redirections and the other adjustments that Handler makes before merging.
- DataCenter: the ordered map is a sorted sequence with upper_bound; strings hold no zero byte.
- BitOps: bitsinbyte is taken as the number of bits of its index; BITOP, and the ranges of BITCOUNT and BITPOS.
- BitField: signed fields of 64 bits, whose shift by 64 is undefined; SET, whose check of a value out of range can overflow max - value; growing the string before a write, and the copy that GET reads from.
- ServerGroup's weighted choice, Auth's prefixes, configuration, statistics, sockets and the remaining commands: easy members next to these.
