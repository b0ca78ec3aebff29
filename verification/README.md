# GETFILE servers, client and proxy cache: a verified model

The repository holds three cooperating systems, and this project models the logic of each.

* **Proxy and cache daemon** (`project3/proxy_cache`). For every request a proxy thread passes an
  admission region, asks the cache daemon for a path, takes a shared-memory segment from a pool and
  receives the file through it; a cache thread passes its own admission region and writes the file
  into that segment. The two loops keep separate byte counters and hand the segment back and forth
  with a writer and a reader semaphore; segments are reused for unrelated transfers. The model is a
  state machine (`Protocol`) whose steps are the atomic actions of the threads, for any number of
  proxy slots, cache slots, segments and requests, any file contents, any short reads, any choice of
  the thread that a signal wakes, and with spurious wake-ups. Its in-place parts are classes:
  `Monitor.Region`, `SegmentPool.Pool`, `Segment.SharedSegment`, `Wire.RequestBuffer`,
  `Startup.SharedInfo`. They are proved against the same functions that the steps use.
* **Multithreaded file server** (`project1/gfserver_mt`, `project1/gfserver`). The same admission
  region (`Monitor` again), the chunk loop over `pread`, the header printer, and the request
  tokeniser working in place on its buffer.
* **Client** (`project1/gfclient`, `project1/gfclient_mt`). The receive loop of `gfc_perform` as a
  method over a real header buffer, proved against a fold over the reads; then the fold is proved to
  depend on the stream and on what the header buffer has gathered, for every stream. Also the naming
  of local files and the directory walk.

## Main results

1. `ProtocolSafety.RunInv`: one invariant holds in every state of every run, whatever descriptors
   the cache hands out. From it follow `ProtocolResults.OneToken` and
   `ProtocolResults.MutualExclusion` (the hand-off), `ProtocolResults.CounterAgreement`,
   `ProtocolResults.CleanReuse` and `ProtocolResults.ReleasedForever` (a released segment is never
   touched again by its former cache thread, even one that has not yet added its last chunk),
   `ProtocolResults.Regions`, `ProtocolResults.PoolConservation`, `ProtocolResults.NeverAborts` and
   `ProtocolLiveness.DeadlockFree`. None of these depends on the bytes that are handed over: mutual
   exclusion, clean reuse and deadlock freedom survive where the bytes go wrong (result 3), and where
   nothing can move any more every slot and segment is back (`ProtocolTermination.StuckIsReturned`).
2. `ProtocolResults.Integrity` (every client has a prefix of its own file, and all of it at the end),
   `ProtocolTermination.RunsAreBounded` (at most 36 N + 11 B steps for N requests over B bytes, and
   two more per spurious wake-up), `ProtocolTermination.MaximalRunsComplete` and
   `ProtocolTermination.EveryRunCanComplete`.
3. With a cache that keeps one descriptor per file, `read` and `lseek` of two transfers get into each
   other's way. `SharedDescriptor.IntegrityExactly`: the clients get their own files in every
   reachable state if and only if there is one proxy slot, or one cache slot, or no two requests name
   the same file of at least two bytes. `SharedDescriptor.TerminationExactly`: the runs are bounded
   if and only if there is one slot on one side, or no two requests name the same nonempty file.
   Integrity and completion in result 2 hold under the first condition, the bound and
   `ProtocolTermination.EveryRunCanComplete` under the second; both hold if every transfer has a
   descriptor of its own. The runs that break integrity read one byte at a time
   (`SharedDescriptor.Rewound`); with reads that fill the room whenever they can,
   `SharedDescriptor.ChunksCorrupt` has one for every file longer than a chunk, unless the file
   repeats itself chunk by chunk.
4. `ChunkIndependence.AnyStream`: what the client makes of any stream, under any cut into reads, is
   one look at the stream and at the bytes that its header buffer holds when the header is complete.
   Hence `ChunkIndependence.ChunkIndependent` and `ChunkIndependence.SameForAllCuts`: behind a success
   header the cut does not matter, as long as it does not take the client out of that buffer.
   `GfTransfer.CanonicalTransfer` and `GfTransfer.GetFile` compose this with the server and its
   workers.
5. Properties that the code does not have, each with the exact condition where it holds.
   * The header buffer has 1024 bytes, and each read is copied into it before its size is tested
     (`project1/gfclient/gfclient.c:151` and `:206`). `ChunkIndependence.LeavesBuffer`: the copy goes
     beyond the buffer if and only if more than 1024 bytes have been gathered with the read that
     completes the header; `ChunkIndependence.OverrunExample` is an input.
     `ChunkIndependence.LongHeader`: a stream whose header is longer than the buffer is rejected only
     if the reads fill the buffer exactly and there is a NUL in it; it is never accepted.
     `ChunkIndependence.SmallReadsFit` and `ChunkIndependence.ShortStreamFits` name cuts and streams
     that are safe.
   * The server's own header (`project1/gfserver/gfserver.c:58`) has a blank that the client does not
     count (`project1/gfclient/gfclient.c:168`), so the body is shifted by one byte:
     `GfTransfer.RepositoryHeaderShifts` says what arrives, `GfTransfer.RepositoryTransferExact` that
     the file arrives intact exactly when it consists of newlines only, and
     `GfTransfer.RepositoryTransferLosesData` gives an input. The positive theorems use the header as
     the client prints it.
   * No refusal of that server is recognised (`GfTransfer.RepositoryRefusals`), and the refusals that
     the client knows are recognised exactly when the read that completes them brings nothing more
     than a NUL right behind them (`GfTransfer.CanonicalRefusals`).

## Model

| member | source | states |
|---|---|---|
| Text.Find | project1/gfclient/gfclient.c:155 | `strstr`: the first occurrence, or none at all |
| Text.ScanNumberOf | project3/proxy_cache/handle_with_cache.c:97 | `%d` reads back what `%d` printed, negative numbers included, up to the first non-digit |
| Text.ScanWordOf | project3/proxy_cache/simplecached.c:56 | `%s` reads back a printed word up to the first white space |
| Text.CharClasses | project3/proxy_cache/simplecached.c:56 | the characters that `%s` stops at and `%d` reads are those of the C library |
| Text.DecLeading | project3/proxy_cache/handle_with_cache.c:134 | a printed number has no leading zero |
| Wire.RequestRoundTrip | project3/proxy_cache/handle_with_cache.c:60 | a plain path survives printing, the copy out of the reused buffer and `%s`, whatever stale and uninitialised bytes surround it |
| Wire.CopyStaysInside | project3/proxy_cache/simplecached.c:281 | the copy for a worker stays inside the 1024 bytes if and only if a NUL is left in the request buffer |
| Wire.NulSurvives | project3/proxy_cache/simplecached.c:269-281 | after any run of messages that is the case if and only if the uninitialised buffer had a NUL behind the longest of them |
| Wire.RequestBuffer.Receive | project3/proxy_cache/simplecached.c:269-281 | the received bytes overwrite the front of the 1024 bytes only; the task gets the C string at the front, or the copy leaves the buffer; a plain path is parsed back |
| Wire.ReplyRoundTrip | project3/proxy_cache/simplecached.c:66-83 | status and length survive the reply message, whatever follows it in the buffer |
| Wire.SegmentRoundTrip | project3/proxy_cache/handle_with_cache.c:134 | segment number and size survive the segment message, whatever follows it |
| Wire.PrintedTexts | project3/proxy_cache/handle_with_cache.c:60-134 | the texts of the three messages and of the success header, as literals |
| Wire.Malformed | project3/proxy_cache/simplecached.c:58-61 | white space alone is no message, and a word alone no reply |
| Monitor.NextKeepsInv | project3/proxy_cache/handle_with_cache.c:52-56 | test, leave-and-signal and spurious wake-up keep: counter exact, within capacity, no lost wake-up |
| Monitor.NobodyStuck | project3/proxy_cache/handle_with_cache.c:109-112 | nobody sleeps in front of a region that is empty and has no woken thread |
| Monitor.Region.TryEnter | project3/proxy_cache/handle_with_cache.c:52-56 | admitted exactly when a unit is left; the counter and the phases change as `Test` says |
| Monitor.Region.Exit | project3/proxy_cache/handle_with_cache.c:163-166 | gives one unit back and wakes exactly one waiter if there is one |
| Segment.IntRoundTrip | project3/proxy_cache/simplecached.c:143-144 | every `int` is read back from its four bytes |
| Segment.ChunkRoundTrip | project3/proxy_cache/simplecached.c:138-144 | payload stored first, length second: the reader gets exactly the chunk, whatever the segment held |
| Segment.WriteTouches | project3/proxy_cache/simplecached.c:138-144 | a round of the writer changes the length word and the bytes of the chunk, and nothing behind them |
| Segment.LengthExposesChunk | project3/proxy_cache/handle_with_cache.c:145 | a stored length makes exactly that many bytes behind the word readable |
| Segment.ChunkFits | project3/proxy_cache/webproxy.c:142 | for every accepted segment size the room does not wrap, and every chunk lies inside the segment with a representable length |
| Segment.SharedSegment.Write | project3/proxy_cache/simplecached.c:137-147 | between the semaphores the chunk is stored and the token passes to the reader |
| Segment.SharedSegment.Read | project3/proxy_cache/handle_with_cache.c:144-148 | the reader takes the chunk and passes the token back |
| SegmentPool.TakeConserved | project3/proxy_cache/handle_with_cache.c:118-128 | behind a passed test the scan breaks at a free segment below nseg, and the head stays the sum of the rest |
| SegmentPool.GiveConserved | project3/proxy_cache/handle_with_cache.c:156-160 | a release adds one to the head and keeps it the sum of the rest |
| SegmentPool.GiveUndoesTake | project3/proxy_cache/handle_with_cache.c:118-160 | releasing what was just acquired restores the status array |
| SegmentPool.RunConserved | project3/proxy_cache/handle_with_cache.c:118-160 | free plus held is nseg after any run of acquires and releases |
| SegmentPool.Pool.constructor | project3/proxy_cache/webproxy.c:163-219 | the initialisation loop leaves every segment free and the head at nseg |
| SegmentPool.Pool.Acquire | project3/proxy_cache/handle_with_cache.c:121-127 | the in-place scan takes the first free segment and changes nothing else |
| SegmentPool.Pool.Release | project3/proxy_cache/handle_with_cache.c:157-158 | exactly the head and that segment's entry change |
| Startup.SharedInfo.constructor | project3/proxy_cache/webproxy.c:183-224 | distinct segments with semaphores 1 and 0 and the full status array |
| Startup.SharedInfo.StartsProtocol | project3/proxy_cache/webproxy.c:163-229 | what the constructor has set up is an initial state of the protocol, for any cache and any requests |
| Startup.Start | project3/proxy_cache/webproxy.c:89-160 | which arguments pass the checks of `main`, and how many workers and segments of which size are then set up, both said of the numbers before their conversion to unsigned: negative sizes and counts are accepted, as large ones |
| ProtocolInv.ProxyLocalKeeps | project3/proxy_cache/handle_with_cache.c:58-168 | every step of a proxy thread keeps what is known of its transfer and touches no segment it does not hold |
| ProtocolInv.CacheLocalKeeps | project3/proxy_cache/simplecached.c:56-158 | every step of a cache thread keeps what is known of its transfer; it writes only the segment its partner holds |
| ProtocolSteps.AcquireCore | project3/proxy_cache/handle_with_cache.c:118-128 | an acquired segment is held by nobody else and is as good as new |
| ProtocolSteps.ReleaseCore | project3/proxy_cache/handle_with_cache.c:156-160 | a released segment is as good as new although its cache thread may still be running |
| ProtocolSteps.AcceptRoom | project3/proxy_cache/simplecached.c:278-281 | no request reaches the NUL behind it in the reused buffer, so every copy stays inside, and the next one too |
| ProtocolSteps.AcceptCore | project3/proxy_cache/simplecached.c:270-287 | the accept loop hands the right path to the right cache thread |
| ProtocolSteps.NobodyReads | project3/proxy_cache/simplecached.c:134-150 | with one slot on one side, no other transfer can still read when a file is opened, although its cache thread may still run |
| ProtocolSteps.GetCore | project3/proxy_cache/simplecached.c:63-79 | the descriptor given to a transfer is read by another one only if both ask for the same file and may share |
| ProtocolSteps.ProxyStepCore | project3/proxy_cache/handle_with_cache.c:58-168 | proxy steps keep the invariant of all threads, segments and descriptors |
| ProtocolSteps.CacheStepCore | project3/proxy_cache/simplecached.c:56-158 | cache steps keep the invariant of all threads, segments and descriptors |
| ProtocolSafety.NextKeepsInv | project3/proxy_cache/handle_with_cache.c:43-171 | every step of every thread keeps the whole invariant |
| ProtocolSafety.InitialInv | project3/proxy_cache/webproxy.c:163-229 | the initial state satisfies it |
| ProtocolSafety.RunInv | project3/proxy_cache/simplecached.c:39-165 | the invariant holds in every state of every run |
| ProtocolSafety.TestRegion | project3/proxy_cache/simplecached.c:50-54 | the three waits of the system are steps of the generic region |
| ProtocolSafety.LeaveRegion | project3/proxy_cache/simplecached.c:154-157 | so are the three release-and-signal sections |
| ProtocolResults.Integrity | project3/proxy_cache/handle_with_cache.c:131-152 | what is sent is a prefix of the requester's own file behind the right header, and the whole file on loop exit |
| ProtocolResults.NeverAborts | project3/proxy_cache/simplecached.c:58-163 | no thread reaches an `exit(-1)` for a message or leaves its segment |
| ProtocolResults.OneToken | project3/proxy_cache/webproxy.c:205-212 | writer value, reader value and threads between the semaphores add up to one, for every segment |
| ProtocolResults.MutualExclusion | project3/proxy_cache/simplecached.c:137-147 | no segment is written while it is read or by two threads |
| ProtocolResults.CounterAgreement | project3/proxy_cache/handle_with_cache.c:141-151 | bytes placed minus bytes consumed is exactly the chunk in the segment, and the cache is ahead by that round at most; that chunk is never empty unless descriptors are shared |
| ProtocolResults.SameRounds | project3/proxy_cache/simplecached.c:134-149 | both loops have made the same number of rounds when the segment is returned |
| ProtocolResults.CleanReuse | project3/proxy_cache/handle_with_cache.c:142-160 | free exactly when nobody holds it; then semaphores 1 and 0 and no cache thread at it; never two holders |
| ProtocolResults.ReleasedForever | project3/proxy_cache/simplecached.c:147-150 | after the release the former cache thread never waits on or writes the segment again |
| ProtocolResults.Regions | project3/proxy_cache/simplecached.c:50-54 | each counter is the number of threads inside, within its bound, and no wake-up is lost |
| ProtocolResults.ProxySlots | project3/proxy_cache/handle_with_cache.c:52-56 | at most `nthread` proxy threads between their critical sections, counted exactly, and no lost wake-up |
| ProtocolResults.CacheSlots | project3/proxy_cache/simplecached.c:50-54 | the same for the `nworkers` of the daemon |
| ProtocolResults.SegmentSlots | project3/proxy_cache/handle_with_cache.c:118-128 | nobody sleeps for a segment while more are free than woken threads are on their way to |
| ProtocolResults.PoolConservation | project3/proxy_cache/handle_with_cache.c:118-128 | the head of the status array is the sum of the rest, and free plus held is nseg |
| SharedDescriptor.Rewound | project3/proxy_cache/simplecached.c:78-79 | two requests for one file of two bytes or more, whatever it holds: a run in which the first client is sent all but the last byte and then the first two bytes again |
| SharedDescriptor.IntegrityExactly | project3/proxy_cache/simplecached.c:138 | with one descriptor per file: every client gets a prefix of its own file in every reachable state if and only if one side has a single slot or no file of two bytes or more is requested twice |
| SharedDescriptor.RewoundInChunks | project3/proxy_cache/simplecached.c:78-79 | with full reads only: a file longer than a chunk is rewound behind its first chunk and sent from the start until the count is full |
| SharedDescriptor.ChunksCorrupt | project3/proxy_cache/simplecached.c:138 | so full reads do not save a file longer than a chunk, unless it repeats itself chunk by chunk |
| SharedDescriptor.Starved | project3/proxy_cache/simplecached.c:134-150 | two requests for one nonempty file: a run, with full reads, in which the second makes any number of rounds with a `read` that returns zero |
| SharedDescriptor.TerminationExactly | project3/proxy_cache/simplecached.c:134-150 | with one descriptor per file: runs are bounded if and only if one side has a single slot or no nonempty file is requested twice; full reads make no difference |
| ProtocolLiveness.NobodyHolds | project3/proxy_cache/handle_with_cache.c:142-148 | the two sides of a segment are never both blocked |
| ProtocolLiveness.StuckIsFinished | project3/proxy_cache/handle_with_cache.c:52-166 | waits for slots, replies, segments and semaphores never form a cycle |
| ProtocolLiveness.DeadlockFree | project3/proxy_cache/handle_with_cache.c:52-166 | while a request is unfinished, some thread can take a step |
| ProtocolTermination.StepDecreases | project3/proxy_cache/handle_with_cache.c:142-166 | every step decreases the measure by at least one, a spurious wake-up raises it by at most one |
| ProtocolTermination.RunsAreBounded | project3/proxy_cache/simplecached.c:134-157 | bound on the length of every run |
| ProtocolTermination.StuckIsReturned | project3/proxy_cache/handle_with_cache.c:109-168 | where no step is possible every request is finished and all slots, segments and semaphores are as at the start, whatever bytes were sent |
| ProtocolTermination.StuckIsCompleted | project3/proxy_cache/handle_with_cache.c:109-168 | where no step is possible every request is answered, all slots and segments are back, all semaphores are as at the start |
| ProtocolTermination.MaximalRunsComplete | project3/proxy_cache/handle_with_cache.c:109-168 | the same for the last state of a maximal run |
| ProtocolTermination.EveryRunCanComplete | project3/proxy_cache/handle_with_cache.c:43-171 | every run can be continued to completion without spurious wake-ups |
| GfClient.GfcRequest.constructor | project1/gfclient/gfclient.c:39-51 | initial counters |
| GfClient.GfcRequest.Append | project1/gfclient/gfclient.c:151-152 | the read is appended to the header text and the rest of the buffer stays zero |
| GfClient.GfcRequest.TakeFirstBytes | project1/gfclient/gfclient.c:163-185 | splits the first body bytes out of the header buffer, clipped to the length |
| GfClient.GfcRequest.TakeHeader | project1/gfclient/gfclient.c:154-213 | terminator search, verdict, and the size limit |
| GfClient.GfcRequest.TakeBody | project1/gfclient/gfclient.c:217-229 | streams and clips the body |
| GfClient.GfcRequest.Perform | project1/gfclient/gfclient.c:123-234 | the loop over the reads is the fold `Run` |
| GfClient.RunAccounted | project1/gfclient/gfclient.c:137-230 | for every stream at all, malformed ones included: bytes written are bytes counted, never more than the length, and with status OK the return is 0 exactly when the length is reached |
| ChunkIndependence.TerminatorSeen | project1/gfclient/gfclient.c:154-157 | the terminator is found exactly when all of it has arrived, for every stream and every cut |
| ChunkIndependence.BodyRun | project1/gfclient/gfclient.c:217-229 | behind the header the loop writes the stream, clipped to the length, under every cut |
| ChunkIndependence.AnyStream | project1/gfclient/gfclient.c:119-234 | for every stream, malformed or cut short, and every cut: the result is a function of the stream and of the bytes gathered with the read that completes the header |
| ChunkIndependence.AnyHeader | project1/gfclient/gfclient.c:154-204 | any header that fits the buffer gets the verdict on the text gathered with the read that completes it |
| ChunkIndependence.ClassifyMore | project1/gfclient/gfclient.c:160-163 | a success header announces the same length whatever body bytes follow it |
| ChunkIndependence.DigitsAreSuccess | project1/gfclient/gfclient.c:161 | leading zeros and a plus sign in the length are accepted |
| ChunkIndependence.NoLength | project1/gfclient/gfclient.c:163-204 | a length of zero or less is rejected as invalid |
| ChunkIndependence.ChunkIndependent | project1/gfclient/gfclient.c:123-234 | every success header and every cut of every initial part of its stream: the buffer is left, or the result is that of the stream, with the body taken from where the client's own header would end |
| ChunkIndependence.SameForAllCuts | project1/gfclient/gfclient.c:123-234 | two cuts of one stream that stay in the buffer are indistinguishable |
| ChunkIndependence.EarlyClose | project1/gfclient/gfclient.c:137-147 | a stream that ends early: exactly the received bytes written, count short of the length, return -1, status OK |
| ChunkIndependence.LeavesBuffer | project1/gfclient/gfclient.c:151 | the copy goes beyond the header buffer if and only if more than a bufferful is gathered with the read that completes the header |
| ChunkIndependence.OverrunExample | project1/gfclient/gfclient.c:119-151 | an input on which it does: the client's own header for 1024 bytes, in reads of 10, 1024 and nine bytes |
| ChunkIndependence.SmallReadsFit | project1/gfclient/gfclient.c:151 | reads that leave room for a whole header and a NUL keep the client in its buffer |
| ChunkIndependence.LongHeader | project1/gfclient/gfclient.c:206-213 | no terminator within the buffer: rejected exactly if the reads fill the buffer exactly and there is a NUL in it; otherwise the code reads or writes beyond it |
| GfServer.GetRoundTrip | project1/gfclient/gfclient.c:110 | a path starting with a slash, free of NUL, blank and carriage return, reaches the handler unchanged if and only if it has fewer than 1008 characters; a longer one takes the client out of its 1024-byte buffers |
| GfServer.ThreeWords | project1/gfserver/gfserver.c:139-161 | three words reach the handler, with the third as path, if and only if they are GETFILE, GET and a path with a slash in front; all others are answered FILE_NOT_FOUND |
| GfServer.FewerWords | project1/gfserver/gfserver.c:152-154 | so are requests of fewer words |
| GfServer.HandledExactly | project1/gfserver/gfserver.c:134-161 | of all texts with a terminator, exactly those are handled that ask for such a path, with any blanks and carriage returns around the words |
| GfServer.OtherReads | project1/gfserver/gfserver.c:120-134 | an empty read is answered with an error, a text without a terminator is read on, a full buffer without a NUL is undefined |
| GfServer.ServerTexts | project1/gfserver/gfserver.c:57-64 | the three header texts, as literals |
| GfServer.Strtok | project1/gfserver/gfserver.c:140-145 | one `strtok` call in place: the next token, and no other character of the buffer changes |
| GfServer.ParseRequest | project1/gfserver/gfserver.c:139-145 | the three calls in place find the first three tokens |
| GfServer.Serve | project1/gfserver/gfserver.c:115-161 | the first read of a connection gets the reaction of `Receive`: refused if empty, read on without a terminator, routed with one, undefined if it fills the buffer and holds no NUL |
| GfWorker.SendFile | project1/gfserver_mt/handler.c:58-79 | the result is the length of the file exactly if every `write` took the whole chunk that `pread` returned, and then all of it is sent; at the first call that fails or falls short it is -1, with exactly the bytes sent so far |
| GfWorker.LocalKeeps | project1/gfserver_mt/handler.c:41-86 | every step of a worker keeps: as much of the header as `write` took, then exactly the counted bytes of the file |
| GfWorker.RunInv | project1/gfserver_mt/handler.c:25-89 | that and the region invariant hold in every state of every run |
| GfWorker.CallDecides | project1/gfserver_mt/handler.c:62-78 | what each result of `pread` and `write` does to a worker |
| GfWorker.OnlyFullSends | project1/gfserver_mt/handler.c:70-75 | a worker one of whose calls fails or falls short ends with -1 |
| GfWorker.HeaderWritten | project1/gfserver_mt/handler.c:43-56 | every worker writes its header or its refusal in one step, which nobody skips |
| GfWorker.UnitsReturned | project1/gfserver_mt/handler.c:35-84 | the counter is exact and bounded, no wake-up is lost, and every path gives its unit back |
| GfWorker.DeadlockFree | project1/gfserver_mt/handler.c:35-39 | while a worker is not done, some step is possible |
| GfWorker.RunsAreBounded | project1/gfserver_mt/handler.c:60-79 | bound on the length of every run, for all results of `pread` and `write` |
| GfTransfer.WorkerStream | project1/gfserver_mt/handler.c:42-86 | what a finished worker has written: the part of the header that `write` took (its result is ignored), and all of the file, or less of it with -1 as result |
| GfTransfer.CanonicalTransfer | project1/gfserver_mt/handler.c:58-79 | server to client: the file exactly, or a proper prefix with return -1, under every interleaving, short read and cut that stays in the client's header buffer, once the header is written in full |
| GfTransfer.GetFile | project1/gfclient/gfclient.c:110-230 | request, server, worker and client together deliver the file at the requested path, for every path that the client can ask for, under the same conditions |
| GfTransfer.MissingFile | project1/gfserver_mt/handler.c:43-49 | a missing file is answered with the refusal that the client knows, and the client reports it, under every cut |
| GfTransfer.NotFoundTexts | project1/gfserver/gfserver.c:60-62 | the refusals of server, worker and client, as literals |
| GfTransfer.RepositoryMissingFile | project1/gfserver/gfserver.c:60 | with this server's own header it is reported as invalid |
| GfTransfer.EmptyFile | project1/gfclient/gfclient.c:163 | an announced length of zero is rejected as invalid, whatever follows, under the same condition on the cut |
| GfTransfer.RepositoryHeaderShifts | project1/gfserver/gfserver.c:58 | with the server's own header every file arrives behind a newline and without its last byte, with success, under the same condition on the cut |
| GfTransfer.RepositoryTransferExact | project1/gfclient/gfclient.c:168-172 | it arrives intact if and only if every byte of it is a newline and the cut stays in the buffer |
| GfTransfer.RepositoryTransferLosesData | project1/gfserver/gfserver.c:58 | a concrete file that does not arrive |
| GfTransfer.CanonicalRefusals | project1/gfclient/gfclient.c:186-197 | a refusal is understood exactly when the read that completes it brings nothing (or a NUL) behind it and stays in the buffer, so always if nothing follows it |
| GfTransfer.RepositoryRefusals | project1/gfserver/gfserver.c:60-62 | the refusals that the server sends are reported as invalid, whatever follows them, under the same condition on the cut |
| LocalFiles.NamesDistinct | project1/gfclient_mt/gfclient_download.c:44-48 | equal names come from equal counters, whatever the paths are |
| LocalFiles.LocalNameNumbered | project1/gfclient_mt/gfclient_download.c:47 | the path behind its first character, a dash, and the counter in six digits, or in more without a leading zero |
| LocalFiles.Namer.LocalPath | project1/gfclient_mt/gfclient_download.c:44-48 | name from path and counter; the counter moves on |
| LocalFiles.Namer.NameAll | project1/gfclient_mt/gfclient_download.c:153-161 | each request of a batch gets its own name with its own number, and the names are pairwise distinct |
| LocalFiles.DirectoriesExact | project1/gfclient_mt/gfclient_download.c:54-68 | exactly the prefixes before a slash behind the first character, parents first |
| LocalFiles.MakeDirectories | project1/gfclient_mt/gfclient_download.c:54-68 | the in-place walk creates those and leaves the path as it was |

## Left out

Assumptions about the surroundings, which the code does not enforce:

- `simplecache` is not part of this model: a map from paths to contents stands for it. It answers
  either with a descriptor that no reading transfer uses, or with one fixed descriptor per file;
  other ways of sharing descriptors are not modelled.
- `read` returns at least one byte while data remains, and never fails (its error test compares an
  unsigned value with zero, `project3/proxy_cache/simplecached.c:139`).
- The proxy's `gfs_send` sends all it is given; socket messages arrive whole and connections succeed.
- File lengths and segment sizes are below 2^31, as `int` and `atoi` imply. Paths in the proxy fit
  their buffers and hold no white space.
- The daemon's request buffer, which is never initialised, happens to hold a NUL behind every request
  (`Protocol.HasRoom`); `Wire.NulSurvives` says that nothing less will do. The other uninitialised
  buffers hold a NUL somewhere behind the message, as `sscanf` needs it.
- A critical section is one step: apart from the wait itself, nothing in it blocks.

What the model does not capture:

- The threads' loops in the proxy and the cache are steps of a state machine and not loops of a
  method, since their point is the interleaving; update in place is modelled in the classes.
- Perform: a run that leaves the header buffer ends there, as undefined. A full buffer without a NUL
  counts as left, since `strstr` and `sscanf` read on behind it; in practice what happens then
  depends on the byte behind the buffer.
- CanonicalTransfer: what the client makes of a stream whose header `write` has cut short; the server
  goes on as if it had been sent, and `ChunkIndependence.AnyStream` is all that holds.
- IntegrityExactly: its failing half uses short reads. If `read` always fills the room, a shared file
  of one chunk is not at risk, since its descriptor only ever stands at the start or at the end; that
  is not proved here, and `ChunksCorrupt` covers the longer files.
- Start: sizes and counts for which the operating system refuses the memory.
- Serve: only requests that arrive in one read. `headRd` is never advanced
  (`project1/gfserver/gfserver.c:131`), so a later read overwrites an earlier one.
- MakeDirectories: the results of `mkdir`, and the paths on which it makes the program exit.
- Lifetime of `path` and of the accepted socket after the asynchronous handler has returned: each
  worker owns its path and its stream.
- Unlinking after a failed download, which uses the last local path for all threads of a batch.
- Set-up and removal of sockets, shared memory and semaphores, signals, options, logging, memory
  release.
- `project3/proxy_server`, `project1/echo`, `project1/transfer` and `project4`: library calls and
  single copy loops, which are not modelled.
