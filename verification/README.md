# Verification of the proxy and its HTTP library

A Dafny model of the stateful and the byte-level core of this repository: the HTTP library under
`internal/fasthttp` (connection pool, pipelined client, body framing, path and query codecs, header
scanner, worker pool, file-handle cache), and the proxy's own router, session cache, byte transfer
and accountant. `dafny verify dfyconfig.toml` checks everything.

Concurrent code is modelled twice. A state machine has one action for each locked section, channel
operation, dial, timer or I/O outcome, and its theorems hold for every run of these actions, in any order.
A class has the fields of the Go struct and methods with the loops of the Go code, and each
method is proved to make the step of the machine. Sequential code is modelled by
methods on arrays or a byte reader, proved equal to a recursive specification about which the
round trips are proved. Readers return arbitrary short reads.

What a specification function computes is also stated without it, on bytes, fields and times: which inputs a
reader accepts and how it refuses the others, which connection, worker or node is handed out, and which
round ends a transfer.

| component | machine or specification | theorems | methods |
|---|---|---|---|
| connection pool | `ConnPool.dfy`, `ConnPoolSections.dfy` | `ConnPoolSafety.dfy`, `ConnPoolIdle.dfy`, `ConnPoolSections.dfy` | `HostClient.dfy`, `WantConnQueue.dfy` |
| pipelined client | `Pipeline.dfy` | `PipelineSafety.dfy`, `PipelineOrder.dfy` | `PipelineConn.dfy` |
| body framing | `HexInt.dfy`, `ChunkedBody.dfy`, `Round2.dfy` | same, `SizeLines.dfy` | same, `RequestStream.dfy`, `ByteSource.dfy` |
| path and query | `PathSegments.dfy`, `PercentCodec.dfy`, `QueryArgs.dfy` | same, `EncodingLaws.dfy` | `NormalizePath.dfy`, `PercentCodec.dfy`, `QueryArgs.dfy` |
| header scanner | `HeaderScanner.dfy` | same, `HeaderSyntax.dfy` | `HeaderScanner.dfy` |
| worker pool | `WorkerPool.dfy` | `WorkerPoolSafety.dfy` | `WorkerPoolMethods.dfy` |
| file handles | `FsCache.dfy`, `SmallReaders.dfy` | `FsCacheSafety.dfy`, `FsCacheKeys.dfy` | `FsHandler.dfy` |
| router | `Router.dfy` | `RouterSafety.dfy`, `RouterSessions.dfy`, `RouterFairness.dfy`, `RouterPools.dfy`, `RouterTargets.dfy` | `GenjiRouter.dfy` |
| transfer, accountant | `Transfer.dfy`, `Accountant.dfy` | `TransferSafety.dfy`, `Accountant.dfy`, `Accounting.dfy` | `Transfer.dfy`, `Accountant.dfy` |

Where a promise does not hold, the model follows the code, and says exactly when it does hold:

- A request can wait in the queue while a connection is idle, through exactly two races: a connection
  becomes idle between the two locked sections of `acquireConn`, or a waiter gives up between
  `waiting` and `tryDeliver` while another is queued behind it (`ConnPoolIdle.LeavesMatched`,
  `ConnPoolIdle.IdleMeansNobodyQueued`, with a run of each). Apart from these, a request that waits
  beside an idle connection has a dial or an offer of its own in flight (`ConnPoolIdle.OthersAreServed`).
- `round2` gives a large enough buffer only up to the largest int32; a larger chunk makes the reader
  panic. It panics on no input exactly when there is a body limit that leaves room for a CRLF
  (`Round2s.Round2Fits`, `ChunkedBody.NoInputPanics`).
- In fixed-length mode `requestStream.Read` reports io.EOF for a connection that ended early
  just as for a complete body; it was complete exactly when contentLength bytes came out
  (`RequestStreams.RequestStream.ReadFixedSizes`).
- `Transfer` overwrites its error with the result of the last `Decrement` unless no byte was read since
  the last charge; errors of failed writes are always lost (`TransferSafety.ErrorReported`,
  `TransferSafety.LastRoundDecides`, `TransferSafety.WriteErrorsLost`).
- The accountant closes its channel when it stops: calls that wait and later calls panic, and what is
  buffered or cached is not published (`Accountants.LostAtShutdown`).
- A removed node can still be routed when `Route` has cached a session of it and then failed to
  schedule the job or insert the row, and only then (`RouterSafety.NeverRoutesRemoved`,
  `RouterSafety.SessionsAgree`, `RouterSessions.RemovedStillRouted`).
- A session keeps the data its node had when it was picked, and ignores what later requests with it ask for.
  It holds what the table says exactly until its node is registered with other data or removed without
  its row being found (`RouterSafety.FreshOverRuns`, `RouterSafety.StaleSession`, `RouterSessions.SessionSticks`).
- A session can end before its own time through the job or the node of an earlier placement, exactly when it
  was placed while one of them was left over (`RouterSessions.EarlyEndsOverRuns`, `RouterSessions.NoLeftovers`,
  `RouterSessions.EarlyEnd`).
- The statement in `pickFromPool` that should delete the pool row of a missing node has no
  argument for its parameter and deletes nothing. A pool answers reliably exactly when all its rows
  are registered; otherwise it can pick only a bounded number of times and is then stuck
  (`RouterPools.PoolReliable`, `RouterPools.EnoughPicksStick`).

The guard in `smallFileReader` would keep the count of its file for ever if it fired
(`FsCacheSafety.LeakedNeverReleased`), but a pooled reader is always at position 0, so it does not
(`SmallReaders.GuardNeverFires`); the results about file handles hold with it and without it.

## Model

| member | source | states |
|---|---|---|
| `ConnPoolSafety.PoolSafety` | internal/fasthttp/client.go:1485-1768 | In every state that any interleaving reaches, `connsCount` is between 0 and the effective maximum and equals the idle connections plus every slot held by a request, a resolved waiter, a dial in flight or a connection taken out and not yet counted down. A connection in use is open, not idle, and no other goroutine has it; every open connection has exactly one owner; the idle list has no duplicates |
| `ConnPoolSafety.StepKeepsInv` | internal/fasthttp/client.go:1485-1768 | Every locked section and every dial, timer or delivery outcome keeps the invariant: lock holding, cells, the slot count, ownership, and one route per waiter |
| `ConnPoolSafety.StepResolvesOnce` | internal/fasthttp/client.go:2035-2078 | No step closes a `wantConn` a second time; once an error is in it, no connection is ever put into it; a waiter stops waiting only when its cell was closed once |
| `ConnPoolSafety.ResolvedOnceOverRuns` | internal/fasthttp/client.go:2035-2078 | The same over whole runs: at most one close, and resolved stays resolved, whatever delivery, dial failure and timeout race |
| `ConnPoolSafety.WaiterNeverForgotten` | internal/fasthttp/client.go:1543-1580 | An unresolved waiter is in the queue exactly once or exactly one goroutine is about to deliver to it; whoever stopped waiting is resolved or unreachable |
| `ConnPoolIdle.LeavesMatched` | internal/fasthttp/client.go:1485-1768 | When a request can wait in the queue beside an idle connection: a step leads there if and only if it queues a waiter although a connection has become idle since the first section, or it is a delivery whose waiter gave up after it was popped while another one is still queued |
| `ConnPoolIdle.IdleMeansNobodyQueued` | internal/fasthttp/client.go:1485-1768 | Over whole runs: nobody is ever queued beside an idle connection exactly in the runs with neither race |
| `ConnPoolIdle.OthersAreServed` | internal/fasthttp/client.go:1594-1608 | Whoever else waits while a connection is idle has left the queue, and exactly one dial or offer of its own is on its way |
| `ConnPoolIdle.IdleBesideWaiter` | internal/fasthttp/client.go:1519-1557 | A run of the first race: a release falls between the two locked sections |
| `ConnPoolIdle.IdleAfterCancel` | internal/fasthttp/client.go:1752-1767 | A run of the second race: a waiter cancels between `waiting` and `tryDeliver` while another waits behind it |
| `ConnPoolSafety.IdleDistinct` | internal/fasthttp/client.go:1743-1768 | The idle list never holds a connection twice |
| `ConnPoolSections.ReleaseIsRun` | internal/fasthttp/client.go:1743-1768 | `releaseConn`, uninterrupted, is a run of the machine: dead waiters are dropped, the first live one gets the connection, otherwise it becomes idle |
| `ConnPoolSections.DecIsRun` | internal/fasthttp/client.go:1690-1714 | `decConnsCount`, uninterrupted, is a run: the slot goes to a dial for the first live waiter or is given up |
| `ConnPoolSections.QueueIsRun` | internal/fasthttp/client.go:1584-1592 | `queueForIdle`, uninterrupted, is a run |
| `ConnPoolSections.ReleaseGoesToOldest` | internal/fasthttp/client.go:1743-1768 | A released connection goes to the waiter that has waited longest of those that still wait, and only becomes idle when there is none |
| `ConnPoolSections.DialGoesToOldest` | internal/fasthttp/client.go:1690-1714 | A slot that becomes free goes to a dial for the waiter that has waited longest of those that still wait, and is only given up when there is none |
| `ConnPoolSections.QueuesLast` | internal/fasthttp/client.go:1584-1592 | A request that queues drops exactly the resolved waiters in front and goes behind everybody else |
| `ConnPoolSections.AcquireOutcome` | internal/fasthttp/client.go:1519-1580 | After the first section a request has an idle connection, dials, queues or has failed, by whether one is idle, whether there is room and whether it may wait |
| `HostClients.HostClient.AcquireSlot` | internal/fasthttp/client.go:1488-1521 | The first locked section hands out the idle connection used last under LIFO and the one idle longest under FIFO, by time of last use and by position; a new one exactly when none is idle and `connsCount` is below the maximum, 512 by default; nothing else of the idle list changes, and this is the step of the machine |
| `HostClients.HostClient.QueueForIdle` | internal/fasthttp/client.go:1584-1592 | On the two-stage queue: settled waiters at the front go, the new one is appended |
| `HostClients.HostClient.DeliverTo` | internal/fasthttp/client.go:2046-2060 | Delivers exactly to an unresolved cell and closes it once; a resolved one is left alone and false is returned |
| `HostClients.HostClient.CancelWant` | internal/fasthttp/client.go:2064-2078 | The cell ends with the error and no connection, closed exactly once in all; a connection that had been delivered is handed back |
| `HostClients.HostClient.ReleaseConn` | internal/fasthttp/client.go:1743-1768 | The loop over the two-stage queue does what the scan of the machine does, stamps the last use, and keeps the idle list in the order of last use |
| `HostClients.HostClient.DecConnsCount` | internal/fasthttp/client.go:1690-1714 | The loop of `decConnsCount`, with the waiter for which a dial is started |
| `HostClients.HostClient.TakeExpired` | internal/fasthttp/client.go:1637-1664 | The cleaner takes every connection idle longer than the limit and no other, although it stops at the first that is not, and leaves the rest in order |
| `HostClients.HostClient.CloseIdleConnections` | internal/fasthttp/client.go:1614-1626 | All idle connections are taken, none is left |
| `WantConnQueues.DropSettledIsDeadPrefix` | internal/fasthttp/client.go:2138-2147 | What `clearFront` removes is exactly the maximal prefix of waiters that no longer wait |
| `WantConnQueues.WantConnQueue.PushBack` | internal/fasthttp/client.go:2105-2107 | The two slices refine the FIFO sequence `head[headPos:]` then `tail`: push appends to it |
| `WantConnQueues.WantConnQueue.SwapStages` | internal/fasthttp/client.go:2111-2117 | The old head's cleared storage becomes the new tail, the sequence is unchanged, and the two stages never share storage |
| `WantConnQueues.WantConnQueue.PopFront` | internal/fasthttp/client.go:2110-2123 | Pop returns and removes the first of the sequence, nil when it is empty, and clears the slot |
| `WantConnQueues.WantConnQueue.PeekFront` | internal/fasthttp/client.go:2126-2134 | Peek is the first of the sequence and changes nothing |
| `WantConnQueues.WantConnQueue.ClearFront` | internal/fasthttp/client.go:2138-2147 | Terminates, leaves exactly what follows the settled prefix, and reports whether there was one |
| `PipelineSafety.ResponsesMatchRequests` | internal/fasthttp/client.go:2593-2801 | Over every interleaving of writer, reader, worker, callers and failures the i-th response read is given to the i-th request written |
| `PipelineSafety.SignalledAtMostOnce` | internal/fasthttp/client.go:2593-2801 | A submitted item is pending in one place or has been signalled once, never both and never twice |
| `PipelineSafety.AllSignalledOnReturn` | internal/fasthttp/client.go:2593-2632 | When `worker` returns, exactly the items still in `chW` are unsignalled: every path (success, failed write or read, expiry, stop, drain, overflow) has sent one `done` |
| `PipelineSafety.StepConserves` | internal/fasthttp/client.go:2433-2801 | Each channel operation, write, read, timer and drain step keeps the account of every item |
| `PipelineSafety.StepKeepsOrder` | internal/fasthttp/client.go:2650-2801 | Each step keeps the written, queued, taken and answered histories prefixes of one another |
| `PipelineOrder.OldestLeaves` | internal/fasthttp/client.go:2433-2471 | In every reachable state what leaves `chW`, to the writer or by an eviction, is the item submitted first of those there: exactly what was submitted after it stays; an evicted item is signalled |
| `PipelineOrder.WrittenInOrder` | internal/fasthttp/client.go:2650-2801 | In every run requests are written, and so answered, in the order of their submission |
| `PipelineConns.PipelineConn.Put` | internal/fasthttp/client.go:2454-2471 | Queueing in `Do`, with anything other goroutines do between its three channel operations: a full queue gives up its oldest item, which is signalled; the overflow is returned exactly when the others have filled the room, or there is no capacity |
| `PipelineConns.QueueLength` | internal/fasthttp/client.go:2454-2471 | The length of `chW` over any run: what was submitted less what left |
| `PipelineConns.PipelineConn.WriteItem` | internal/fasthttp/client.go:2696-2752 | The writer's loop body is a run of the machine on each of its paths |
| `PipelineConns.PipelineConn.ReadItem` | internal/fasthttp/client.go:2769-2800 | The reader's loop body: the oldest queued item gets the response, or the error that ends the reader, and one signal either way |
| `PipelineConns.PipelineConn.DrainReaders` | internal/fasthttp/client.go:2624-2629 | The drain loop tells every pending reader exactly once and leaves `chW` alone |
| `ChunkedBody.ReadWrittenBody` | internal/fasthttp/http.go:1990-2220 | Chunked round trip for every cut of every body: it is read back whole and the reader stops exactly before the trailer section; it is refused exactly when it exceeds the limit or the largest buffer |
| `ChunkedBody.NoInputPanics` | internal/fasthttp/http.go:2155-2288 | `readBodyChunked` panics on no input if and only if there is a body limit and the largest buffer holds a body of that size with a CRLF; without a limit some input always makes it panic |
| `ChunkedBody.OversizedChunkPanics` | internal/fasthttp/http.go:2155-2288 | A declared chunk size within the body limit ends in the slice panic when the buffer that `round2` gives cannot hold it with its CRLF, whatever follows, and no other size does before its data arrives |
| `ChunkedBody.ParsePrintedSize` | internal/fasthttp/http.go:2222-2268 | A printed size line is parsed back, and rejected when it has more than 15 digits |
| `ChunkedBody.WriteChunk` | internal/fasthttp/http.go:2058-2076 | Size in hexadecimal, CRLF, data, and a final CRLF unless it is the last chunk |
| `ChunkedBody.WriteBodyChunked` | internal/fasthttp/http.go:1990-2017 | Every piece the body reader returns becomes a chunk; only a body that ended without an error gets its last chunk |
| `ChunkedBody.ReadCrLf` | internal/fasthttp/http.go:2253-2268 | Consumes exactly CR and LF, fails on anything else |
| `ChunkedBody.ParseChunkSize` | internal/fasthttp/http.go:2222-2251 | The loop that skips the chunk extension and the CRLF after it compute the parsed size line, which `SizeLines.SizeLineExactly` describes on its bytes |
| `ChunkedBody.AppendBodyFixedSize` | internal/fasthttp/http.go:2155-2185 | For every way the bytes arrive: the first n bytes are appended and nothing after them is read, or the input was too short; it panics exactly when the needed length exceeds the room `round2` can give |
| `ChunkedBody.ReadBodyChunked` | internal/fasthttp/http.go:2192-2220 | The loop computes the one-shot reading of the input, which `SizeLines.AcceptedExactly` describes on its bytes, for every limit and every short read, error cases included |
| `SizeLines.SizeLineExactly` | internal/fasthttp/http.go:2222-2268 | A size line is read as n, leaving rest, if and only if it is 1 to 15 hexadecimal digits of either case worth n, any extension that holds no CR and does not begin with a digit, and CRLF |
| `SizeLines.RefusedSizeLine` | internal/fasthttp/http.go:2222-2268 | Which error a refused size line gives: at the end of the input, without a digit, with more than 15 digits, or without the CRLF |
| `SizeLines.PrintedSizeWithExtension` | internal/fasthttp/http.go:2234-2238 | A body is read the same with any chunk extension behind the size as without it |
| `SizeLines.ChunkDecides` | internal/fasthttp/http.go:2192-2220 | What follows a size line of n decides: n = 0 ends the body, otherwise the body is too large, the chunk is cut short, not ended by CR and LF, or taken |
| `SizeLines.AcceptedExactly` | internal/fasthttp/http.go:2192-2268 | `readBodyChunked` accepts exactly the inputs that are chunks with any extensions and a size line worth 0, whose data is within the limits; it gives their data and stops behind that line |
| `HexInts.ReadWrittenHex` | internal/fasthttp/bytesconv.go:254-308 | A printed size is read back exactly when it is below 16^15, and rejected otherwise |
| `HexInts.HexLength` | internal/fasthttp/bytesconv.go:286-308 | The number of digits printed: at most k exactly below 16^k |
| `HexInts.WriteHexInt` | internal/fasthttp/bytesconv.go:286-308 | The buffer filled from its end holds the digits of n; every int fits into it |
| `HexInts.ReadHexInt` | internal/fasthttp/bytesconv.go:254-282 | The loop over the reader: value, error and the byte that is put back |
| `Round2s.Round2Fits` | internal/fasthttp/http.go:2270-2288 | `round2(n) >= n` exactly up to the largest int32 |
| `Round2s.Round2IsLeastPower` | internal/fasthttp/http.go:2270-2288 | The result is the least power of two that is large enough, capped at the largest int32 |
| `Round2s.SmearIsLeast` | internal/fasthttp/http.go:2270-2288 | Or-ing the shifts of a word with it, and adding one, gives the least power of two above it |
| `RequestStreams.OneShotAgrees` | internal/fasthttp/streaming.go:20-62 | The incremental and the one-shot chunked reader accept the same inputs (up to the size limits of the latter), give the same bytes and stop at the same place |
| `RequestStreams.WrittenBodyStreams` | internal/fasthttp/streaming.go:20-62 | A body written in any pieces streams out whole and the stream stops before the trailer section |
| `RequestStreams.RequestStream.ReadChunked` | internal/fasthttp/streaming.go:20-62 | One call in chunked mode: what it returns followed by what is still to come is what was to come, and it is not empty for a buffer that is not; an error only if the body is malformed |
| `RequestStreams.RequestStream.ReadSizes` | internal/fasthttp/streaming.go:20-62 | For every sequence of buffer sizes and every short read, the bytes so far begin the body and are all of it when the end is reported; with buffers that are not empty a well-formed body of n bytes is over after n + 1 reads, and a malformed one is reported |
| `RequestStreams.RequestStream.ReadFixed` | internal/fasthttp/streaming.go:63-86 | One call in fixed-length mode: the next bytes of prefetched then connection; end of file at contentLength or where the connection ends |
| `RequestStreams.RequestStream.ReadFixedSizes` | internal/fasthttp/streaming.go:63-86 | For every sequence of buffer sizes: the first contentLength bytes of prefetched then connection, and nothing read past them; enough buffers that are not empty reach the end, with contentLength bytes exactly when the connection had them |
| `PercentCodec.DecodeQuoteArg` | internal/fasthttp/args.go:546-589 | Decoding undoes argument quoting, for every byte string |
| `PercentCodec.DecodeQuotePath` | internal/fasthttp/args.go:596-625 | Decoding without plus undoes path quoting, for every byte string |
| `PercentCodec.QuoteArgHasNoSeparators` | internal/fasthttp/bytesconv.go:355-367 | A quoted argument contains no separator of the query syntax, so that quoting does not change how a query is cut |
| `PercentCodec.AppendQuotedArg` | internal/fasthttp/bytesconv.go:355-367 | The loop appends the quoted argument |
| `PercentCodec.AppendQuotedPath` | internal/fasthttp/bytesconv.go:369-383 | The loop appends the quoted path, a lone "*" unquoted |
| `PercentCodec.DecodeArgAppend` | internal/fasthttp/args.go:546-625 | The fast path and the loop append the decoding, malformed and truncated escapes included |
| `PercentCodec.DecodeInPlace` | internal/fasthttp/args.go:546-625 | Decoding into the beginning of the source's own storage gives the same result as decoding elsewhere |
| `EncodingLaws.DecodesExactly` | internal/fasthttp/args.go:546-625 | A text decodes to what its tokens mean and nothing else: an escape is "%" and two hexadecimal digits of either case, any other "%" stands for itself, "+" is a space in an argument, and a "%" with less than two bytes behind it ends the decoding with the rest as it is |
| `EncodingLaws.ArgQuoting` | internal/fasthttp/bytesconv.go:355-367 | Arguments are quoted byte by byte: letters, digits, "-", ".", "_", "~" stay, a space becomes "+", everything else "%" and two upper-case digits worth the byte |
| `EncodingLaws.PathQuoting` | internal/fasthttp/bytesconv.go:369-383 | Paths likewise, where "$", "&", "+", ",", "/", ":", ";", "=" and "@" stay too and a space is escaped |
| `QueryArgs.ParsePrint` | internal/fasthttp/args.go:90-149 | For every list: printing and parsing keep keys, values and flags in order, drop the entries that are empty and forget a value behind the no-value flag |
| `QueryArgs.ParsePrintExact` | internal/fasthttp/args.go:90-149 | The round trip is exact for precisely the lists without such entries |
| `EncodingLaws.ParseJoins` | internal/fasthttp/args.go:90-104 | Any query string falls apart at any "&", into what its two parts give |
| `EncodingLaws.ParseKeyValue` | internal/fasthttp/args.go:506-544 | Between two "&" the first "=" ends the key; key and value are decoded; an empty entry is dropped and a field without "=" has no value |
| `QueryArgs.ArgsScanner.Next` | internal/fasthttp/args.go:506-544 | One call returns the field up to the next "&", decoded, and nothing of the slot it reuses |
| `QueryArgs.Args.AllocArg` | internal/fasthttp/args.go:456-466 | A slot is added or an old one reused; the others stay |
| `QueryArgs.Args.ScanSlot` | internal/fasthttp/args.go:90-104 | Scanning into the last slot takes one field off the query and keeps the other slots |
| `QueryArgs.Args.ParseBytes` | internal/fasthttp/args.go:90-104 | The loop with its reuse of slots gives the parsed list, whatever the slots held before |
| `QueryArgs.Args.AppendBytes` | internal/fasthttp/args.go:134-149 | The loop appends the printed list |
| `NormalizePaths.NormalizePath` | internal/fasthttp/uri.go:581-636 | For every input the in-place loops compute the segment-stack result: empty and inner "." segments go, ".." pops and never above the root, a final ".." leaves a slash, a final "." stays |
| `NormalizePaths.DropDuplicateSlashes` | internal/fasthttp/uri.go:586-599 | The loop ends with no "//" left and keeps the meaning of the path |
| `NormalizePaths.DropDots` | internal/fasthttp/uri.go:601-611 | The loop ends with no "/./" left and keeps the meaning of the path |
| `NormalizePaths.DropDotDots` | internal/fasthttp/uri.go:613-626 | The loop ends with no "/../" left and keeps the meaning of the path |
| `NormalizePaths.TrimTail` | internal/fasthttp/uri.go:628-636 | A final "/.." takes the segment before it along; at the root "/" is left |
| `NormalizePaths.NormalizeIsNormal` | internal/fasthttp/uri.go:581-636 | Every result starts with "/", contains no "//", "/./" or "/../" and does not end in "/.." |
| `NormalizePaths.PrintParseStable` | internal/fasthttp/uri.go:581-712 | Quoting a path and normalising it again gives it back exactly when it has that form |
| `NormalizePaths.NormalizeTwice` | internal/fasthttp/uri.go:581-712 | So printing and parsing a normalised path changes nothing |
| `PathSegments.NormalIsFixed` | internal/fasthttp/uri.go:581-636 | The segment stack leaves a path of that form as it is |
| `PathSegments.RemoveDotsIsNormal` | internal/fasthttp/uri.go:581-636 | The segment stack gives a path of that form, whatever it starts from |
| `PathSegments.NoInnerIff` | internal/fasthttp/uri.go:586-626 | A segment is an inner one exactly where it stands between two slashes, so that the searches of the loops miss none |
| `PathSegments.CutInner` | internal/fasthttp/uri.go:586-626 | Segments whose pushing changes nothing can be cut out of a path without changing its meaning |
| `PathSegments.InnerLaws` | internal/fasthttp/uri.go:586-626 | Anywhere in a path "//" and "/./" mean "/", and "/seg/../" means "/" for every ordinary segment |
| `PathSegments.EndLaws` | internal/fasthttp/uri.go:613-636 | "/../" at the root means "/", "/.." is "/", and a final "/seg/.." means "/" |
| `HeaderScanners.ScanPrinted` | internal/fasthttp/header.go:2895-3002 | For every list of printable headers: scanning the printed lines gives it back, key by key and value by value, and stops after the blank line |
| `HeaderScanners.ScanPrintedExact` | internal/fasthttp/header.go:2895-3002 | The round trip holds for precisely the printable lists |
| `HeaderScanners.ScanPrefix` | internal/fasthttp/header.go:2895-3002 | Scanning any strict prefix of a printed block asks for more data after a prefix of its headers |
| `HeaderScanners.ScannedIsPrintable` | internal/fasthttp/header.go:2895-3002 | Whatever is scanned, the headers found are printable |
| `HeaderSyntax.AnyLine` | internal/fasthttp/header.go:2895-3002 | Any line of a name, a colon, spaces, a value, spaces and CRLF or LF is read as that name and value, unless the next line starts with a blank and has no colon |
| `HeaderSyntax.ScannedLine` | internal/fasthttp/header.go:2895-3002 | And nothing else is read as a header: whatever is, was such a line |
| `HeaderSyntax.RefusedName` | internal/fasthttp/header.go:2912-2932 | The name is refused if and only if a line feed comes before the first colon and the block has not ended |
| `HeaderSyntax.Incomplete` | internal/fasthttp/header.go:2912-2937 | More data is asked for if and only if there is no line feed, or no colon, in what there is, and the block has not ended |
| `HeaderSyntax.EndOfBlock` | internal/fasthttp/header.go:2901-2911 | A block ends exactly at an empty line, with or without CR |
| `HeaderScanners.HeaderScanner.Next` | internal/fasthttp/header.go:2895-3002 | One call with its remembered colon and line end does what fresh searches would, and moves `b` and `hLen` together |
| `HeaderScanners.HeaderScanner.LookAhead` | internal/fasthttp/header.go:2959-2981 | The look at the next line: a continuation exactly when it starts with a blank and has no colon before its end; what it remembers is what a search finds |
| `HeaderScanners.ScanHeaders` | internal/fasthttp/header.go:2895-3002 | The loop that callers run: the scanned list, the consumed length and the error |
| `HeaderScanners.AppendHeaderLine` | internal/fasthttp/header.go:2385-2390 | Key, colon, space, value and CRLF are appended |
| `FsCacheSafety.HandleSafety` | internal/fasthttp/fs.go:603-610 | Over every interleaving of requests, reader closes and cleaner passes: a file is released at most once, never while `readersCount` is positive, never while cached or pending; the count is the number of its owners |
| `FsCacheSafety.HandleIsInOnePlace` | internal/fasthttp/fs.go:751-797 | Each opened file is always in exactly one place: cached, pending, being released, in the hands of the request that opened it, or released |
| `FsCacheSafety.NegativeCountUnreachable` | internal/fasthttp/fs.go:603-610 | The panic for a negative count is unreachable |
| `FsCacheSafety.StepKeepsInv` | internal/fasthttp/fs.go:751-919 | Every locked section, reader close and release keeps the invariant |
| `FsCacheSafety.CleanHeld` | internal/fasthttp/fs.go:751-797 | A cleaner pass moves each file it holds to exactly one of cached, pending and released, and releases none that has readers |
| `FsCacheSafety.PassDecides` | internal/fasthttp/fs.go:751-797 | A pass hands a file that is pending, or cached under a stale key, to release if and only if no owner is left, and otherwise keeps it pending |
| `FsCacheSafety.LeakedNeverReleased` | internal/fasthttp/fs.go:538-550 | A request that failed at the guard of `smallFileReader` would keep its count: its file is never released in any later state |
| `FsCacheKeys.ServesWhatWasAsked` | internal/fasthttp/fs.go:845-915 | In every reachable state a request uses a file that was opened for the path and encoding it asked for, be it its own, a cached one or that of a faster request |
| `SmallReaders.GuardNeverFires` | internal/fasthttp/fs.go:538-550 | That guard does not fire as long as nobody uses a reader after closing it |
| `SmallReaders.GuardFiresAfterClose` | internal/fasthttp/fs.go:671-706 | One read after the close is enough to make it fire |
| `FsHandlers.FsHandler.Find` | internal/fasthttp/fs.go:855-860 | The first locked section: a cached file is used and its count is raised by one; otherwise the request goes on to open one and nothing changes |
| `FsHandlers.FsHandler.Insert` | internal/fasthttp/fs.go:896-912 | The second locked section keeps the file another request was faster to cache, and caches its own otherwise; the count of the one that is used is raised by one |
| `FsHandlers.FsHandler.DecReadersCount` | internal/fasthttp/fs.go:603-610 | In every state the invariant allows the count does not become negative, the panic is not reached, and the count is again the number of the owners of the file |
| `FsHandlers.FsHandler.CleanCache` | internal/fasthttp/fs.go:751-779 | The loops over pending files and caches do the cleaner's step |
| `FsHandlers.FsHandler.CleanCacheNolock` | internal/fasthttp/fs.go:781-797 | Exactly the files older than the limit leave the cache, each to pending or to release by its count |
| `WorkerPoolSafety.WorkerSafety` | internal/fasthttp/workerpool.go:170-251 | In every reachable state `workersCount` is the number of workers started and not finished, within the maximum; a channel is at most once in `ready`, and then its worker is idle with nothing outstanding; no channel has two messages; no connection is with two workers |
| `WorkerPoolSafety.RejectedWhenFull` | internal/fasthttp/workerpool.go:170-201 | In every reachable state a connection is rejected if and only if no worker is ready and as many as allowed are running; otherwise it gets an idle worker with nothing outstanding, of the ready ones the one used last |
| `WorkerPoolSafety.ConnectionsConserved` | internal/fasthttp/workerpool.go:147-251 | No connection is lost or served twice: it is with its caller, rejected, with exactly one worker, or was served exactly once |
| `WorkerPoolSafety.NoneReadyAfterStop` | internal/fasthttp/workerpool.go:73-92 | After `Stop` no channel is in `ready` again |
| `WorkerPoolSafety.CleanTakesExpired` | internal/fasthttp/workerpool.go:101-145 | With a clock that does not go back, each cleaner pass removes every worker idle beyond the limit and no other, and the rest keep their order |
| `WorkerPoolSafety.ExpiredExactly` | internal/fasthttp/workerpool.go:101-145 | In a sorted list the expired channels are exactly the removed prefix |
| `WorkerPoolSafety.StepKeepsInv` | internal/fasthttp/workerpool.go:73-251 | Every section and channel operation keeps the invariant, the order of `ready` included |
| `WorkerPools.LastExpired` | internal/fasthttp/workerpool.go:109-126 | The binary search finds the last expired channel, -1 when there is none |
| `WorkerPools.WorkerPool.GetCh` | internal/fasthttp/workerpool.go:170-201 | The newest ready channel, a new worker below the maximum, or nil, which it is if and only if none is ready and `workersCount` has reached the maximum |
| `WorkerPools.WorkerPool.Release` | internal/fasthttp/workerpool.go:203-213 | The channel goes to the end of `ready`, unless the pool is stopping |
| `WorkerPools.WorkerPool.Clean` | internal/fasthttp/workerpool.go:101-134 | The locked section is the cleaner's step |
| `WorkerPools.WorkerPool.NotifyObsolete` | internal/fasthttp/workerpool.go:136-144 | After the unlock each removed worker is told once to quit |
| `WorkerPools.NotifyAllIsRun` | internal/fasthttp/workerpool.go:136-144 | That loop is a run of the machine |
| `WorkerPools.WorkerPool.Stop` | internal/fasthttp/workerpool.go:73-92 | Every ready worker is told to quit and `ready` is emptied |
| `RouterSafety.SessionsAgree` | pkg/router/genji.go:211-244 | Cached sessions have a matching row in `sessions` throughout a run exactly when no call of `Route` fails after it has cached a session that has no row of the same node yet; removals, stale jobs and evictions never break it |
| `RouterSafety.RowsAgree` | pkg/router/genji.go:203-294 | In every reachable state each row has a registered node and a deletion job to come |
| `RouterSafety.NeverRoutesRemoved` | pkg/router/genji.go:203-294 | After any run, once a node is removed no call of `Route` answers it until it is added again, if and only if no session of it was cached without its row |
| `RouterSessions.RemovedStillRouted` | pkg/router/genji.go:232-240 | A run in which `Route` fails between the cache and the row, and goes on answering the node after its removal |
| `RouterSafety.StepKeepsInv` | pkg/router/genji.go:203-407 | Every call, failed or not, expiry and eviction keeps rows, nodes, jobs and their numbers in agreement |
| `RouterSessions.EndsExactly` | internal/cache/fastcache.go:42-70 | What ends a cached session: any deletion job for it, an eviction, or the removal of any node that has a row for it |
| `RouterSessions.EndsEarlyExactly` | internal/cache/fastcache.go:55-70 | A job or a node that is not its own can end a cached session if and only if an earlier job for it is still pending or another node has a row for it |
| `RouterSessions.EarlyEndsOverRuns` | pkg/router/genji.go:211-244 | Over whole runs: that can happen at some moment exactly when the run places the session while a job of it is pending or another node than the new one has a row for it |
| `RouterSessions.NoLeftovers` | pkg/router/genji.go:246-294 | A session never has such leftovers exactly in the runs that do not evict it while a job is pending and do not remove a node with a row for it |
| `RouterSessions.EarlyEnd` | pkg/router/genji.go:211-294 | A run after which the first of two jobs, and the removal of the first of two nodes, each end a session that is on the second node |
| `RouterSessions.SessionSticks` | pkg/router/genji.go:211-244 | Until then every request that carries the session gets the same node, wherever it wants to go |
| `RouterSessions.FirstAnswerStarts` | pkg/router/genji.go:211-244 | The first answer for a session is the one the next request gets, without another pick |
| `RouterSafety.SpoilsExactly` | pkg/router/genji.go:203-294 | A step makes a cached session differ from the table if and only if it registers its node again with other data, or removes its node while the session has no row |
| `RouterSafety.FreshOverRuns` | pkg/router/genji.go:203-294 | Over whole runs: cached sessions hold what the table says throughout exactly when no such step occurs |
| `RouterSafety.StaleSession` | pkg/router/genji.go:203-244 | A concrete run in which `Route` answers data the table no longer holds |
| `RouterPools.PoolReliable` | pkg/router/genji.go:657-698 | A pool never fails a request without a session, whatever is routed, if and only if it has rows and each is of a registered node |
| `RouterPools.AlwaysAnswered` | pkg/router/genji.go:657-698 | One request is answered for every possible pick if and only if the pool has rows and all its least-ranked ones are registered |
| `RouterPools.RegisteredPoolAnswers` | pkg/router/genji.go:657-698 | In every run of `Route` a pool whose rows are all registered answers every request whose session, if it asks for one, can be stored |
| `RouterPools.EnoughPicksStick` | pkg/router/genji.go:657-698 | With a row that is not registered a pool can give at most a fixed number of new nodes, and once it has it is stuck |
| `RouterPools.PicksUseBudget` | pkg/router/genji.go:657-698 | Each new node uses up exactly one of that number, and no other request does |
| `RouterPools.StuckForGood` | pkg/router/genji.go:673-680 | A stuck pool, none of whose least-ranked rows is registered, fails every request without a session for as long as only `Route` is called: the statement meant to delete the row does nothing |
| `RouterPools.StuckReachable` | pkg/router/genji.go:296-332 | Adding one peer that is not registered makes such a pool |
| `RouterFairness.FairShare` | pkg/router/genji.go:700-758 | From equal rankings, after k picks for one target, by requests with or without sessions, each of the n matching nodes was picked k / n times rounded down and exactly k mod n of them once more; ranking grows by the number of picks |
| `RouterFairness.GapStays` | pkg/router/genji.go:700-758 | From any rankings the largest gap between matching nodes never grows beyond what it was, or one |
| `RouterTargets.AnsweredWhereAsked` | pkg/router/genji.go:700-758 | Without a pool and a cached session the node that is answered is registered and is where the request asked for: its address, or its country and its region or else its city; it is least ranked of these unless an address was asked for; the request fails exactly when there is no such node or its session cannot be stored |
| `RouterTargets.AnsweredFromPool` | pkg/router/genji.go:657-698 | With a pool and no cached session the row that is picked is a least-ranked one of that pool; the request fails exactly when the pool has no row, the row picked is not of a registered node, or its session cannot be stored |
| `RouterTargets.RanksMove` | pkg/router/genji.go:657-758 | A pick raises the rank of its node by one, and for a pool that of its row, and changes no other rank and no other row |
| `RouterTargets.SessionsByRequest` | pkg/router/genji.go:211-244 | An answered request that carries a session leaves its answer cached; one that carries none, or asks for an address, touches no session |
| `RouterTargets.ResetEqualizes` | pkg/router/genji.go:166-186 | A reset makes all ranks of a target equal, as fair shares need, and keeps its candidates |
| `GenjiRouter.Genji.Route` | pkg/router/genji.go:211-244 | On the tables: the answer and the new state are those of the machine, described by `RouterTargets`, on the paths where the job is not scheduled or the row not inserted too |
| `GenjiRouter.Genji.SetWithExpire` | internal/cache/fastcache.go:55-70 | The entry is set first and stays when the job cannot be scheduled |
| `GenjiRouter.Genji.QueryOne` | pkg/router/genji.go:700-742 | A least-ranked matching row, any matching row for a query by address, none only when nothing matches; which rows match is stated by `RouterTargets.AnsweredWhereAsked` |
| `GenjiRouter.Genji.Remove` | pkg/router/genji.go:246-294 | The node leaves every table and exactly the sessions it has rows for leave the cache, by the loop over its rows; nothing else changes, and the early return leaves the same table as the delete would |
| `GenjiRouter.Genji.Expired` | internal/cache/fastcache.go:55-70 | The deletion job forgets the session in the table and in the cache, keeps every other row and entry, and leaves cache, rows and nodes in agreement |
| `GenjiRouter.Genji.PoolAdd` | pkg/router/genji.go:296-332 | Each id is in this pool afterwards, and in no other, with rank 0; no other row changes |
| `GenjiRouter.Genji.PoolDelete` | pkg/router/genji.go:334-373 | The pool loses exactly these ids, no other pool and no other target loses a candidate, and the rows that remain keep their ranks |
| `GenjiRouter.Genji.PoolCleanNameNotIn` | pkg/router/genji.go:375-407 | Exactly the rows of the named pools stay, unchanged; an empty list of names changes nothing |
| `TransferSafety.BytesConserved` | pkg/transfer.go:21-76 | On every exit path the amounts passed to `Decrement` add up to the bytes read; with a positive AccountBytes each is below AccountBytes + buffer and all but the last at least AccountBytes |
| `TransferSafety.FewCharges` | pkg/transfer.go:31-73 | There is at most one call for each AccountBytes read, and one more |
| `TransferSafety.ErrorReported` | pkg/transfer.go:71-75 | With an accountant that answers nil, the error is returned exactly when no byte has been read since the last charge, as computed from the script; otherwise it is overwritten by nil. `TransferSafety.LastRoundOf` says on the rounds alone which error that is |
| `TransferSafety.LastRoundOf` | pkg/transfer.go:31-75 | On the fields of the rounds alone: the loop ends with the first round with a deadline error, a write error or short write after a read of some bytes, or any read error; it has read what the rounds up to there did, without that one when its deadline failed; the reason is its deadline error, else its write error, else the short write, else its read error unless that is the end |
| `TransferSafety.OneLastRound` | pkg/transfer.go:31-69 | There is exactly one such round in every script |
| `TransferSafety.ErrorOf` | pkg/transfer.go:31-75 | With any accountant: the answer of the last `Decrement` is returned when bytes were left to charge for, else the error that ended the loop; when there is none, an earlier answer of `Decrement` is returned unless a deadline was set since |
| `TransferSafety.LastRoundDecides` | pkg/transfer.go:31-75 | In terms of the last round, for a positive AccountBytes: it must read nothing, and what was unbilled before it must be nothing or enough to be charged first |
| `TransferSafety.UnbilledIsBounded` | pkg/transfer.go:31-73 | At every moment of a transfer what it has charged and what it holds is what it has read; what it holds is below AccountBytes + buffer, and nothing once it has returned |
| `TransferSafety.WriteErrorsLost` | pkg/transfer.go:49-75 | A write that fails or falls short is never reported: the answer of the last `Decrement` is returned in its place |
| `Transfers.Transfer` | pkg/transfer.go:21-76 | The loop computes read, error and charges as specified for every script of reads and writes |
| `Accountants.UsageConserved` | pkg/accountant/redis.go:45-104 | Over every interleaving of calls, receives and flushes, for each user on each node: what the calls that returned asked for is buffered, cached and published, and the rest belongs to calls that wait or panicked |
| `Accountants.CallsHaveOneFate` | pkg/accountant/redis.go:101-104 | Each call has returned, waits for a full buffer or has panicked, and none has panicked before the shutdown |
| `Accountants.FlushedAfterTick` | pkg/accountant/redis.go:57-79 | Once the queue is empty the next tick has published all that was asked for |
| `Accountants.LostAtShutdown` | pkg/accountant/redis.go:47-56 | Exactly the calls that wait at the shutdown and all later ones panic, and of what calls that returned asked for exactly what is buffered or cached then is never published |
| `Accountants.Redis.Receive` | pkg/accountant/redis.go:80-88 | Takes the oldest usage, adds it to its user on its node and changes no other total; the call that has waited longest moves up |
| `Accountants.Redis.Tick` | pkg/accountant/redis.go:57-79 | Afterwards nothing is cached, and for each user on each node the published total has grown by exactly what was; there is one message when anything was cached and none otherwise |
| `Accounting.BytesBilled` | pkg/transfer.go:21-76 | At every moment, with any number of transfers running or returned and their calls interleaved in any way: the bytes they have read for a user through a node are those buffered, waiting, cached, published or lost in a panic for the two, and those the transfers still hold |
| `Accounting.HeldIsBounded` | pkg/transfer.go:31-73 | Each transfer holds less than AccountBytes + buffer, nothing once it has returned, and its calls so far are the first of those it makes |

## Left out

- Sockets, TLS, Redis, libp2p, SQL execution, fastcache internals, `sync.Pool` and wall-clock timers:
  replaced by nondeterministic steps, tables held as maps and sequences of rows, and a byte reader.
- Request and response objects, compression, multipart, cookies, directory listings, logging, options.
- Liveness: no claim says that a waiter is served, a worker scheduled or a connection closed eventually.
- Integer widths other than the two that matter (chunk sizes and `round2`): counters and byte totals are unbounded.
- The 32-bit build, whose digit limit for chunk sizes is 7.
- Connection pool: an unknown `ConnPoolStrategy`, changing `MaxConns` during a run, and the
  `connsCleanerRun` flag with the lifetime of the cleaner; a pass of the cleaner may happen at any time.
- HostClients.HostClient.ReleaseConn: taking the time of the last use and appending the connection are one step, with a
  clock that does not go back; otherwise two releases could leave the idle list unsorted. The connection is not idle
  already, which `ConnPoolSafety.PoolSafety` gives for every holder.
- ConnPoolSections.ReleaseIsRun: one uninterrupted call; interleaved ones are covered by the machine itself.
- Pipelined client: the restart in `init`, one life of a connection being modelled, and the timeout paths of
  `DoDeadline`, which only queue an item and leave it; the writer and reader buffers and their flush timers.
- PipelineConns.PipelineConn.Put: a capacity of zero is allowed, which `init` never creates.
- PipelineSafety.AllSignalledOnReturn: items that are still in `chW` when `worker` returns are left to the next
  connection, which is not part of this model.
- Body framing: errors of the underlying reader other than its end, partial bodies returned beside an error, the
  trailer section itself, and bodies of unknown length.
- RequestStreams.RequestStream.ReadFixedSizes: the prefetched bytes are at most contentLength, because the
  reader that prefetches can read past a smaller limit.
- RequestStreams.OneShotAgrees: without a body limit; the stream has none.
- PercentCodec.DecodeArgAppend: the two decoders are one member with a flag for the plus sign.
- Header scanner: folded values, `normalizeHeaderValue` and name normalisation; a scan stops where a folded value begins.
- `normalizePath` on Windows, and `parseUintBuf`, whose overflow test does not catch every overflow.
- Worker pool: taking the time of the last use and putting the channel back are one step, as two
  interleaved releases can otherwise leave `ready` unsorted; the clock never goes back; hijacking and error logging.
- FsCacheSafety.HandleSafety: Release of a file is counted, the readers of big files that it closes are not modelled.
- Router: each call is one step, as is each expiry; database errors other than that of the insert of a session row; `queryBuilder`, counts, listings and statistics.
- RouterFairness.FairShare: pools are included when all their peers are registered; the query by address has no order and is left out.
- GenjiRouter.Genji.QueryOne: which of several least-ranked rows the database returns is left open.
- TransferSafety.BytesConserved: the connection may do anything that io.Reader allows, but AccountBytes does not change during a transfer.
- Accountants.UsageConserved: the map never fails to marshal, and a failed publish is not told apart from a good one.
- RouterPools.StuckForGood: runs of `Route` alone; adding the node, or removing or resetting rows, can free a pool.
- `TCPDialer` address rotation, and everything else in the repository not named above.
