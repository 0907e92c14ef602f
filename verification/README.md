# Verified models of the path-tracer engine

This project models four parts of the repository in Dafny 4.11 and proves what they are
for, over whole runs. `dafny verify dfyconfig.toml` checks everything.

| files | what they model |
|---|---|
| `RenderScheduler.dfy` | the render scheduler as a transition system: the supervisor, the path tracer's dispatcher thread, its detached handler threads, their renderers, submissions, and either program exiting at any point |
| `SchedulerInvariant.dfy`, `SchedulerSafety.dfy` | what every step keeps, and the safety theorems over every run from start-up |
| `SchedulerOrder.dfy` | earliest-first with its exact condition over runs, how long a request waits, and a run that loses the order |
| `SchedulerScan.dfy` | what a directory scan sees, and order where every new entry is reported |
| `SchedulerProgress.dfy` | no reachable state is a dead end: a running path tracer can finish everything by itself, a crash at any moment is recovered from, and both programs come back |
| `SchedulerBuffers.dfy` | handlers count the buffers they take, and take every one that is published |
| `SchedulerProgramOrder.dfy` | each thread's steps come in the order of its code |
| `DispatcherLoops.dfy` | the directory scan and the slot loop as sequential code, and their agreement with the scheduler's steps |
| `PixelSkip.dfy` | skipped pixels from the HTTP validator to the path tracer's 16-bit copy |
| `StreamBuf.dfy` | `asio::basic_streambuf` as a class over an array, refining a bounded byte queue, past exceptions too |
| `SocketStreamBuf.dfy` | `asio::basic_socket_streambuf`: flush, fill and connect loops over an arbitrary peer, and whole runs past failures |
| `HandlerAllocator.dfy` | the over-aligning allocator of `asio::any_completion_handler` over a byte heap |
| `HandlerOwnership.dfy` | `asio::any_completion_handler` as a move-only, one-shot owner, with aliasing |
| `Prelude.dfy` | shared vocabulary |

## How the models are set up

The scheduler's threads and processes are interleaved one atomic action at a time: each
directory entry reported, each slot tested, each of a handler's two loads of the counter,
each file moved or removed. A run is a sequence of events, each possible where it happens
(`Runs`), and theorems start from `Init()`. The number of slots `n` is arbitrary. Nothing
in the step relation says that there is one path tracer, that a slot has one owner or that
a file is where a handler expects it: `mv` and `rm` of a missing file do nothing, processes
are a table by process id, handlers a table by thread. These are theorems. The supervision
loop, the dispatcher loop and the handler's loop are steps rather than methods, because
other threads act between any two of their actions; the directory scan and the slot loop
are given as methods too, with lemmas that undisturbed steps compute the same.

The directory listing is not a snapshot. An entry created while the dispatcher reads the
directory may or may not be reported, and the step relation allows both.

The classes of the Asio part keep the fields of the C++ classes. Pointers into a buffer are
offsets into it. What the socket, the kernel and the clock answer is a list of records, one
for each pass of a loop; a loop that has used them up is still waiting. `recv` and `send`
may take or give any number of bytes. Sizes in the allocator are 64-bit and wrap.

## What turned out not to hold as written

* Earliest-first fails when a scan misses an entry created while it reads, picks a later
  one and that pick is moved. With growing ids the order holds at every moment of a run
  exactly when that does not happen (`EarliestFirstIff`), and from start-up a run leads
  there (`OrderCanBeLost`). A single pick is the smallest exactly when nothing smaller was
  missed (`PickIsEarliestIff`).
* `basic_streambuf::reserve` compacts before it decides to throw, and then leaves the
  positions alone. A client that catches `length_error` from `prepare` finds its input
  sequence changed unless that repeats with the distance at which it lies from the front
  of the array (`BasicStreamBuf.Prepare`). So it survives, whatever it holds, exactly when
  that distance is zero - nothing consumed since the last compaction - or not below its
  length (`FailureHarmlessIff`). `FailedPrepareChangesInput` is a client that sees it
  happen. A run is first in, first out at every moment exactly when no `prepare` does this
  (`AlwaysConservedIff`). Exceptions from putting characters never change the input
  sequence: a full one lies at the front already.
* `basic_socket_streambuf::connect` reports success for a connection that was never made
  when the wait times out while `SO_ERROR` is still zero, and only then
  (`ClearMeansConnectedIff`, `QuietTimeoutReportsSuccess`).
* A flush that failed after a partial send leaves the put area whole, so the flush that
  succeeds later sends those bytes again (`RetryResends`, `PartialFlushRepeats`). Over a
  run with any failures nothing accepted is lost (`NothingLost`), and nothing is repeated
  exactly when no call that failed had sent anything before its first fatal pass
  (`ExactlyOnceIff`).
* The failure branch of the handler allocator is reachable after a successful raw
  allocation, which is then lost, exactly when `size + align - 1` wraps
  (`PlacementSucceedsIff`). Where only adding the eight bytes of the offset wraps, the
  allocator hands out a block that does not lie in its raw allocation, and stores the
  offset behind the end of that (`BlockFitsIff`, `OffsetOutside`, `HandlerMemory.Allocate`).
* `enforce_nonzero_uint16_t` reads the number as an `int`: 4294967301 passes
  (`DimensionCheckExactIff` says which numbers are judged rightly).
* A body without `pixels_to_skip` passes the validator, and looking the list up in the path
  tracer is then undefined (`ValidateThenParse`).
* The documentation of `any_completion_handler::operator()` says that the wrapper is left
  empty. The code clears the impl and keeps the function table; the model follows the code.

## Model

| member | source | states |
|---|---|---|
| `SchedulerSafety.ConservationThroughCrashes` | src/path-tracer/src/main.cpp:77-100 | after any run, crashes included, the submitted ids split exactly into pending, in progress and finished; finished ids are those that handlers removed, each removed once in the whole run, each rendered to -1 before |
| `SchedulerSafety.RecoveryIsSafe` | src/main.cpp:51-63 | at most one path tracer is forked and unreaped; while one recovers no handler lives in any process; when it has moved everything back, nothing is in progress |
| `SchedulerSafety.HandlersHoldTheirFiles` | src/path-tracer/src/request_handler.cpp:85-94 | a handler's file is in `in_progress/` from its first step until it removes it, is never pending meanwhile, and no other handler in any process serves that request |
| `SchedulerSafety.SlotExclusion` | src/path-tracer/src/main.cpp:84-99 | for any number of slots: a slot is locked iff the dispatcher holds it between claim and spawn or a handler owns it, never both, never two handlers |
| `SchedulerSafety.CapacityBound` | src/path-tracer/src/main.cpp:70-99 | `in_progress/` holds at most `n` files at every moment of every run, also between a crash and recovery |
| `SchedulerSafety.SceneOutlivesRenderer` | src/path-tracer/src/request_handler.cpp:87-156 | nothing is published before the handler has read its file; despite the two loads per round it never takes more buffers than were published; it removes its file and frees the scene only after -1, when nothing more can be published |
| `SchedulerBuffers.TakenIsConsumed` | src/path-tracer/src/request_handler.cpp:129-136 | in every run the count of a handler is the number of buffers it has taken since it was spawned |
| `SchedulerBuffers.TakesNextIff` | src/path-tracer/src/request_handler.cpp:132-136 | from its second load a handler goes on to take one buffer iff the counter is ahead of its count, and otherwise back to the top of its loop with nothing taken |
| `SchedulerBuffers.HandlerCatchesUp` | src/path-tracer/src/request_handler.cpp:130-141 | from every reachable state a handler in its loop, its renderer not done, takes all that is published by its own steps alone |
| `SchedulerBuffers.EveryBufferCanBeTaken` | src/path-tracer/src/request_handler.cpp:117-141 | whatever higher count the renderer publishes next, the handler can take up to it |
| `SchedulerProgramOrder.ProgramOrder` | src/path-tracer/src/main.cpp:77-99 | in every run, crashes included, each step of a dispatcher or handler is one that its code has after the last step it took |
| `SchedulerInvariant.StepKeepsInv` | src/path-tracer/src/main.cpp:77-99 | every event of every thread or process keeps the whole invariant |
| `SchedulerInvariant.TracerKept` | src/path-tracer/src/request_handler.cpp:129-156 | every step inside a path tracer keeps slots, files, counters and scan state consistent |
| `SchedulerInvariant.ForkKeepsSupervision` | src/main.cpp:48-54 | the supervisor's pid variables name exactly its unreaped children, whether `fork` succeeds or fails |
| `SchedulerInvariant.CapacityFromSlots` | src/path-tracer/src/main.cpp:84-99 | every file in progress has a locked slot of its own, so there are at most as many as slots |
| `SchedulerSafety.RunHistory` | src/http-server/endpoints/submit_render.hpp:222-230 | the submitted, removed and rendered sets of the final state are exactly what the events of the run added |
| `SchedulerOrder.EarliestFirstIff` | src/path-tracer/src/main.cpp:40-51 | with growing ids, at every moment at which a path tracer has recovered all that is in progress is below all that is pending, iff no pick is moved whose scan missed a smaller entry |
| `SchedulerOrder.StartsIncrease` | src/path-tracer/src/main.cpp:79-99 | in such a run one process starts requests in strictly increasing order, all below what is pending |
| `SchedulerOrder.OvertakingBreaksOrder` | src/path-tracer/src/main.cpp:80-95 | moving a pick whose scan missed a smaller entry leaves that entry pending below a request in progress, from any reachable state |
| `SchedulerOrder.PickIsEarliestIff` | src/path-tracer/src/main.cpp:45-50 | in any run the id a scan picks is the smallest pending one iff the listing missed no smaller one |
| `SchedulerScan.MissedWasUnreported` | src/path-tracer/src/main.cpp:45-50 | in every run whatever a scan has missed was submitted, unreported, after that scan opened the directory |
| `SchedulerScan.UndisturbedScan` | src/path-tracer/src/main.cpp:40-51 | a scan since whose start nothing went unreported picks the smallest pending request, or none iff nothing is pending, whatever else happened meanwhile |
| `SchedulerScan.QuietScan` | src/path-tracer/src/main.cpp:80-82 | from the top of the loop, opening the directory, visiting entries and closing it leaves the dispatcher with the smallest request that was pending, or back at the top iff there was none |
| `SchedulerScan.ReportedRunInOrder` | src/path-tracer/src/main.cpp:79-99 | a run with growing ids whose listings report every new entry is in order at every moment |
| `SchedulerOrder.BlindScanLosesOrder` | src/path-tracer/src/main.cpp:43-50 | from any state with a scan that has shown nothing and a free slot, growing submissions lead to a later request in progress while an earlier one is pending |
| `SchedulerOrder.OrderCanBeLost` | src/path-tracer/src/main.cpp:40-51 | from start-up, for any positive number of slots, a run with growing ids gets there |
| `SchedulerOrder.WaitIsExact` | src/path-tracer/src/main.cpp:79-99 | while nothing is moved back and nothing overtaken, a pending request waits for exactly the smaller ids pending before it: each dispatch uses up one |
| `SchedulerProgress.CrashIsRecoverable` | src/main.cpp:51-63 | from any reachable state without a running path tracer, with no submission and no exit, reaping, forking and recovery put every orphaned request back among the pending ones and start a dispatcher |
| `SchedulerProgress.CrashAnytime` | src/main.cpp:51-63 | in every reachable state a running path tracer may exit, and then the same holds |
| `SchedulerProgress.BothReturn` | src/main.cpp:51-63 | from every reachable state, with no submission and no exit, the supervisor gets an HTTP server and a path tracer running |
| `SchedulerProgress.RoundSpawnsBoth` | src/main.cpp:52-54 | after any run, a round of the loop whose forks succeed leaves a child of either kind |
| `SchedulerProgress.RoundRunsBoth` | src/main.cpp:51-63 | if the reaping loop has ended and nothing exits in the next round, both programs run after it |
| `SchedulerProgress.StartUpForksBoth` | src/main.cpp:48-49 | start-up forks one HTTP server and one path tracer |
| `SchedulerProgress.Settle` | src/path-tracer/src/main.cpp:75-100 | from each place in its code the dispatcher alone gets back to the top of its loop, also with every slot taken |
| `SchedulerProgress.Drain` | src/path-tracer/src/request_handler.cpp:129-156 | every handler, wherever it is, runs to its end once its renderer stores -1, until none is left; what is pending and where the dispatcher is do not change |
| `SchedulerProgress.ServeAll` | src/path-tracer/src/main.cpp:79-100 | a dispatcher at the top of its loop, with at least one slot, finishes everything with its handlers |
| `SchedulerProgress.EverythingCanFinish` | src/path-tracer/src/main.cpp:79-100 | from any reachable state with a running path tracer, with at least one slot, steps of that process alone - no exit, no reaping, no submission - finish exactly the requests submitted so far |
| `SchedulerProgress.NoDeadEnd` | src/main.cpp:51-63 | the same from every reachable state, recovery included, with no submission and no exit |
| `SchedulerProgress.NewRequestCanFinish` | src/http-server/endpoints/submit_render.hpp:222-230 | in every reachable state any new request can be submitted, and can then be finished |
| `DispatcherLoops.FindEarliestRequest` | src/path-tracer/src/main.cpp:40-51 | the loop returns -1 iff no request file is listed, and otherwise the smallest id, the same as the scheduler's scan |
| `DispatcherLoops.ScanFindsEarliest` | src/path-tracer/src/main.cpp:45-50 | the scan finds the smallest id whatever the order of the listing |
| `DispatcherLoops.VisitsComputeScan` | src/path-tracer/src/main.cpp:45-50 | undisturbed scan steps leave the pick that the loop computes |
| `DispatcherLoops.ClaimSlot` | src/path-tracer/src/main.cpp:85-91 | locks the first free slot and no other, or nothing and returns -1 when all are taken |
| `DispatcherLoops.TestsClaimFirstFree` | src/path-tracer/src/main.cpp:85-93 | undisturbed slot tests claim the slot that the loop claims |
| `PixelSkip.EnforceValidPixels` | src/http-server/endpoints/submit_render.hpp:82-118 | accepts iff there is no list, or it is nonempty and every element is a pair of unsigned numbers inside the 16-bit reading of the image size; says when the code is undefined |
| `PixelSkip.ValidPixels` | src/http-server/endpoints/submit_render.hpp:100-117 | a pixel passes iff it is a list of two unsigned numbers below the 16-bit width and height |
| `PixelSkip.ParsePixels` | src/path-tracer/src/request_handler.cpp:25-32 | for any JSON at all: parses iff every row up to the length modulo 2^32 can be read, and then row i holds element i; otherwise throws or is undefined by the first row that cannot |
| `PixelSkip.RowCases` | src/path-tracer/src/request_handler.cpp:28-31 | a row is read iff it is a list starting with two numbers that fit; it throws iff something indexed is no list or something read is no number |
| `PixelSkip.ReadingIsNumber` | lib/jsonlib/include/json.hpp:5328-5361 | a number below 2^16 is read as itself however written; a negative one modulo 2^16; a fraction is cut off, or undefined out of range |
| `PixelSkip.ValidateThenParse` | src/path-tracer/src/request_handler.cpp:25-32 | an accepted body is parsed iff it has a list, and then to the same pixels in the same order, all inside the image at its full width and height, and to the whole list iff its length fits 32 bits |
| `PixelSkip.DimensionCheckExactIff` | src/http-server/endpoints/submit_render.hpp:68-78 | the dimension check agrees with "nonzero and 16-bit" exactly for the stated numbers, and accepts nothing that is missing or no unsigned number |
| `PixelSkip.LargeDimensionAccepted` | src/http-server/endpoints/submit_render.hpp:76-77 | 4294967301 is accepted as a width and read as 5 |
| `PixelSkip.NarrowingExact` | src/http-server/endpoints/submit_render.hpp:111-112 | a coordinate below the 16-bit dimension survives the 16-bit copy and lies below the dimension at any width |
| `StreamBuf.Run` | lib/asiolib/include/asio/basic_streambuf.hpp:198-346 | for every script of prepare, writes into the result, commit, consume and character calls, past any exceptions: throws where the bounded queue does, gives the same answers and ends with the same input sequence, output sequence and offset; what was taken out followed by what is left is what was there followed by what was put in or committed unless a throwing prepare garbles it |
| `StreamBuf.AlwaysConservedIff` | lib/asiolib/include/asio/basic_streambuf.hpp:308-346 | at every moment of a run the bytes out are the bytes in, in order, iff no prepare throws on an input sequence that does not repeat with its offset |
| `StreamBuf.FirstInFirstOut` | lib/asiolib/include/asio/basic_streambuf.hpp:37-68 | over such a run what was taken out followed by what is left is what was there followed by what was put in or committed |
| `StreamBuf.ReadsDeliverDrained` | lib/asiolib/include/asio/basic_streambuf.hpp:240-274 | over a run that consumes nothing unseen, what is taken out is what the reads deliver |
| `StreamBuf.WriteThenCommit` | lib/asiolib/include/asio/basic_streambuf.hpp:193-238 | committing part of what was written appends that part and leaves the rest to be committed |
| `StreamBuf.Make` | lib/asiolib/include/asio/basic_streambuf.hpp:198-306 | each call on the array is the corresponding step of the queue, exceptions included |
| `StreamBuf.FailureHarmlessIff` | lib/asiolib/include/asio/basic_streambuf.hpp:321-340 | k unread characters survive a throwing prepare whatever they are iff they lie at the front or at least k characters behind it |
| `StreamBuf.FailedPrepareChangesInput` | lib/asiolib/include/asio/basic_streambuf.hpp:321-340 | with maximum 4, four bytes put and one consumed, preparing two throws and turns 2 3 4 into 3 4 4 |
| `StreamBuf.BasicStreamBuf.constructor` | lib/asiolib/include/asio/basic_streambuf.hpp:131-141 | an empty input sequence at the front, an output sequence of at most 128 characters, valid for every maximum, zero included |
| `StreamBuf.BasicStreamBuf.Reserve` | lib/asiolib/include/asio/basic_streambuf.hpp:308-346 | throws iff the limit is exceeded; otherwise keeps the contents and has room: nothing changes if there was room before, and if not the contents move to the front and the buffer grows to exactly what is needed; positions stay valid and the buffer never shrinks either way, and the contents after a throw are exactly described |
| `StreamBuf.BasicStreamBuf.MoveToFront` | lib/asiolib/include/asio/basic_streambuf.hpp:325 | the overlapping move copies the block and touches nothing behind it |
| `StreamBuf.BasicStreamBuf.Prepare` | lib/asiolib/include/asio/basic_streambuf.hpp:198-219 | throws iff size plus n exceeds the maximum; otherwise n bytes can be written, the input sequence is unchanged, and what an output sequence long enough held stays; a throw leaves the input sequence as it was iff it repeats with its offset |
| `StreamBuf.BasicStreamBuf.Commit` | lib/asiolib/include/asio/basic_streambuf.hpp:221-238 | appends the first n bytes of the output sequence, at most all of it, and makes them readable |
| `StreamBuf.BasicStreamBuf.Consume` | lib/asiolib/include/asio/basic_streambuf.hpp:240-254 | drops n bytes from the front, at most all |
| `StreamBuf.BasicStreamBuf.Underflow` | lib/asiolib/include/asio/basic_streambuf.hpp:263-274 | eof iff nothing has been written beyond what was read; otherwise the first byte, and the get area is nonempty |
| `StreamBuf.BasicStreamBuf.Overflow` | lib/asiolib/include/asio/basic_streambuf.hpp:276-306 | a character throws iff the input sequence is full, changing nothing, and is appended otherwise, with room made for up to 128 more as far as the maximum allows; eof changes nothing |
| `StreamBuf.BasicStreamBuf.Sputn` | lib/asiolib/include/asio/basic_streambuf.hpp:283-306 | writing a string appends as much as fits, and throws iff that is not all |
| `StreamBuf.BasicStreamBuf.Sgetn` | lib/asiolib/include/asio/basic_streambuf.hpp:263-274 | reads the longest available prefix and leaves the rest |
| `StreamBuf.BasicStreamBuf.ReadSizeHelper` | lib/asiolib/include/asio/basic_streambuf.hpp:352-359 | the size fits, so preparing it cannot throw; it is positive iff anything may be read; it is at least 512 where that much may be read, and at most 512 or the spare capacity |
| `SocketStreamBuf.FlushSucceedsIff` | lib/asiolib/include/asio/basic_socket_streambuf.hpp:359-392 | a flush succeeds iff the peer takes enough bytes, in any pieces, before any pass other than an unexpired send that moves bytes or a successful wait for a busy socket; it has sent everything iff it succeeded |
| `SocketStreamBuf.FlushFailsIff` | lib/asiolib/include/asio/basic_socket_streambuf.hpp:359-392 | a flush fails iff it gets to a pass that is expired, or sends nothing for another reason than a busy socket, or cannot wait for it, before the peer has taken enough; with that error, having sent what was taken before |
| `SocketStreamBuf.RetryDropped` | lib/asiolib/include/asio/basic_socket_streambuf.hpp:384-391 | waiting for a busy socket, anywhere in a flush, changes neither its outcome nor what it sends |
| `SocketStreamBuf.NothingSentIff` | lib/asiolib/include/asio/basic_socket_streambuf.hpp:359-392 | a flush that does not succeed has sent nothing iff the peer took nothing before the first fatal pass |
| `SocketStreamBuf.SendsOnlyWhenFull` | lib/asiolib/include/asio/basic_socket_streambuf.hpp:337-427 | a put sends nothing while there is room, and everything pending when there is none; a flush sends everything; setbuf drops only an empty buffer |
| `SocketStreamBuf.ExactlyOnceIff` | lib/asiolib/include/asio/basic_socket_streambuf.hpp:337-427 | over any run, failed calls and retries included: the output is never shorter than what was accepted, and it is that, in order, iff no call that failed had sent anything |
| `SocketStreamBuf.NothingLost` | lib/asiolib/include/asio/basic_socket_streambuf.hpp:337-427 | whatever fails, crossing out what was sent twice leaves all that was accepted, in order |
| `SocketStreamBuf.FailingCallSendsPrefix` | lib/asiolib/include/asio/basic_socket_streambuf.hpp:337-427 | up to and including the first call that fails after sending, the wire carries a prefix of what was accepted |
| `SocketStreamBuf.RetryResends` | lib/asiolib/include/asio/basic_socket_streambuf.hpp:359-414 | a failed flush and then a successful one put on the wire what the first had sent and then everything pending |
| `SocketStreamBuf.PartialFlushRepeats` | lib/asiolib/include/asio/basic_socket_streambuf.hpp:359-414 | two bytes put, one sent before a fatal error, then a successful flush: the wire carries 1 1 2 |
| `SocketStreamBuf.BasicSocketStreamBuf.SendAll` | lib/asiolib/include/asio/basic_socket_streambuf.hpp:359-392 | the loop sends exactly the prefix that the flush specification gives, with its outcome and error |
| `SocketStreamBuf.BasicSocketStreamBuf.Overflow` | lib/asiolib/include/asio/basic_socket_streambuf.hpp:337-409 | success: exactly the pending bytes sent, put area holds c or nothing; failure: a proper prefix sent, put area unchanged, c not accepted |
| `SocketStreamBuf.BasicSocketStreamBuf.Sync` | lib/asiolib/include/asio/basic_socket_streambuf.hpp:411-414 | success iff the flush of the put area succeeds; then everything accepted is on the wire, and otherwise a proper prefix |
| `SocketStreamBuf.BasicSocketStreamBuf.Setbuf` | lib/asiolib/include/asio/basic_socket_streambuf.hpp:416-427 | switches to unbuffered iff asked with nothing pending, and loses no byte |
| `SocketStreamBuf.BasicSocketStreamBuf.Underflow` | lib/asiolib/include/asio/basic_socket_streambuf.hpp:283-335 | a nonempty get area gives eof and no change; otherwise one receive, bounded by the space past the putback margin, becomes the get area, or the error of the deciding pass is set |
| `SocketStreamBuf.BasicSocketStreamBuf.Sbumpc` | lib/asiolib/include/asio/basic_socket_streambuf.hpp:283-335 | the byte read followed by the get area is the old get area followed by what was received |
| `SocketStreamBuf.BasicSocketStreamBuf.Sgetc` | lib/asiolib/include/asio/basic_socket_streambuf.hpp:283-335 | looks at the first unread byte, receiving if there is none, and takes nothing |
| `SocketStreamBuf.WriteAll` | lib/asiolib/include/asio/basic_socket_streambuf.hpp:337-427 | over any run of puts, flushes and setbuf, past failures and under any partial sends, wire and put area are those of the run on values, and together everything accepted in order iff nothing was resent |
| `SocketStreamBuf.ReadAll` | lib/asiolib/include/asio/basic_socket_streambuf.hpp:283-335 | over any run of reads, looks ahead and refills, bytes delivered followed by unread ones are everything received, in order, whatever fails |
| `SocketStreamBuf.FillRun` | lib/asiolib/include/asio/basic_socket_streambuf.hpp:292-333 | a fill gives a nonempty prefix of some pass's data that fits past the putback margin |
| `SocketStreamBuf.FilledIff` | lib/asiolib/include/asio/basic_socket_streambuf.hpp:292-333 | a fill delivers some data iff the first pass that is not a successful wait for data is unexpired and received them, cut to the space past the putback margin |
| `SocketStreamBuf.FillFailsIff` | lib/asiolib/include/asio/basic_socket_streambuf.hpp:292-333 | a fill fails with an error iff the first pass that is not a successful wait for data expired, ended the stream, failed for another reason or could not wait, and that is its error |
| `SocketStreamBuf.BasicSocketStreamBuf.ConnectToEndpoints` | lib/asiolib/include/asio/basic_socket_streambuf.hpp:465-526 | every endpoint before the last one tried failed, none is tried after a stop, an empty list ends in not_found, an error present at the start is kept |
| `SocketStreamBuf.TriesUntilHalt` | lib/asiolib/include/asio/basic_socket_streambuf.hpp:465-526 | endpoints that cannot be opened, refuse or fail while waiting are passed over; the loop ends at the first that expires, connects, times out quietly or does not tell its SO_ERROR, and reports what that or the last endpoint gives |
| `SocketStreamBuf.ConnectSucceedsIff` | lib/asiolib/include/asio/basic_socket_streambuf.hpp:465-526 | over the whole list: success is reported iff the first endpoint that ends the loop connects or times out quietly; a connection is made iff it connects |
| `SocketStreamBuf.ClearMeansConnectedIff` | lib/asiolib/include/asio/basic_socket_streambuf.hpp:497-523 | a clear error code means a connection, and conversely, iff the last wait did not time out with SO_ERROR zero |
| `SocketStreamBuf.QuietTimeoutReportsSuccess` | lib/asiolib/include/asio/basic_socket_streambuf.hpp:506-523 | one endpoint still connecting when the wait times out is reported as connected |
| `HandlerAllocator.PlacementSucceedsIff` | lib/asiolib/include/asio/any_completion_handler.hpp:140-155 | at every base address the alignment step succeeds iff the size computation did not wrap |
| `HandlerAllocator.BlockFitsIff` | lib/asiolib/include/asio/any_completion_handler.hpp:140-151 | the placed block is aligned, and it and its offset fit the raw allocation iff adding the offset's size did not wrap |
| `HandlerAllocator.OffsetOutside` | lib/asiolib/include/asio/any_completion_handler.hpp:140-151 | where it did wrap, the offset is stored wholly behind the raw allocation |
| `HandlerAllocator.OffsetRoundTrip` | lib/asiolib/include/asio/any_completion_handler.hpp:148-149 | an offset read back from its eight bytes is the offset written |
| `HandlerAllocator.LiveBlocksDisjoint` | lib/asiolib/include/asio/any_completion_handler.hpp:131-156 | blocks in use, with the offsets behind them, never overlap |
| `HandlerAllocator.AddRaw` | lib/asiolib/include/asio/any_completion_handler.hpp:141-143 | a new raw allocation, whatever is written in it, disturbs no block |
| `HandlerAllocator.AddBlock` | lib/asiolib/include/asio/any_completion_handler.hpp:148-150 | hiding an offset behind a new block disturbs no other block |
| `HandlerAllocator.WriteBlock` | lib/asiolib/include/asio/any_completion_handler.hpp:158-171 | a user's store inside its block changes no other block and no hidden offset |
| `HandlerAllocator.BaseRecovered` | lib/asiolib/include/asio/any_completion_handler.hpp:169-171 | what is read behind a block leads back to its raw base |
| `HandlerAllocator.HandlerMemory.Allocate` | lib/asiolib/include/asio/any_completion_handler.hpp:131-156 | fails iff the raw allocation fails or the size wraps, losing the raw allocation in the latter case; otherwise an aligned nonnull block, every other block untouched; where only the trailing offset wraps, a block whose offset lies outside its raw allocation |
| `HandlerAllocator.HandlerMemory.Write` | lib/asiolib/include/asio/any_completion_handler.hpp:158-171 | changes one byte of one block and keeps the heap sound |
| `HandlerAllocator.HandlerMemory.Deallocate` | lib/asiolib/include/asio/any_completion_handler.hpp:158-176 | hands back exactly the base and length obtained for that block; null does nothing |
| `HandlerAllocator.Session` | lib/asiolib/include/asio/any_completion_handler.hpp:131-176 | over any interleaving, raw allocations obtained are those returned plus those outstanding, base and length; without a wrap the outstanding ones belong to live blocks |
| `HandlerAllocator.StoredByteStays` | lib/asiolib/include/asio/any_completion_handler.hpp:131-176 | what a user stores in a live block is read there after any further allocations, stores and deallocations, until that byte is stored to or the block given back |
| `HandlerOwnership.StageCounts` | lib/asiolib/include/asio/any_completion_handler.hpp:90-115 | the stage of an impl fixes how often it was allocated, constructed, destroyed, freed and invoked: each at most once |
| `HandlerOwnership.InvokedAfterFreed` | lib/asiolib/include/asio/any_completion_handler.hpp:178-191 | whenever a target runs, its impl has been destroyed and freed once and the target has not run before |
| `HandlerOwnership.RunProgram` | lib/asiolib/include/asio/any_completion_handler.hpp:637-756 | for any program over wrapper variables, any of its allocations, constructors and moves throwing, the trace is what the program means, and at the end of all scopes every impl was freed exactly once, ran at most once and only after that |
| `HandlerOwnership.ExecuteAll` | lib/asiolib/include/asio/any_completion_handler.hpp:637-756 | the aliased objects do, statement by statement, what the program means on values |
| `HandlerOwnership.AssignIsMoveSwapEnd` | lib/asiolib/include/asio/any_completion_handler.hpp:679-689 | move assignment means moving into a temporary, swapping with it and ending it, self-assignment included |
| `HandlerOwnership.NullIsEmptySwapEnd` | lib/asiolib/include/asio/any_completion_handler.hpp:691-696 | assigning null is the same with an empty temporary |
| `HandlerOwnership.SwapIsThreeMoves` | lib/asiolib/include/asio/any_completion_handler.hpp:717-722 | swapping two wrappers is three moves by way of a temporary |
| `HandlerOwnership.CallInvokesOnce` | lib/asiolib/include/asio/any_completion_handler.hpp:178-191 | a call through a wrapper with a target runs it once unless moving it out throws, frees its impl once either way and no other, and empties the wrapper |
| `HandlerOwnership.EndsLeaveNothing` | lib/asiolib/include/asio/any_completion_handler.hpp:698-703 | ending every scope leaves no owner |
| `HandlerOwnership.AnyCompletionHandler.FromTarget` | lib/asiolib/include/asio/any_completion_handler.hpp:653-665 | a new wrapper owns a new impl with the matching table; if the allocation throws nothing has happened, and if the target's constructor throws the memory is freed; either way there is no wrapper |
| `HandlerOwnership.AnyCompletionHandler.Move` | lib/asiolib/include/asio/any_completion_handler.hpp:667-677 | ownership moves, the source is left empty |
| `HandlerOwnership.AnyCompletionHandler.MoveAssign` | lib/asiolib/include/asio/any_completion_handler.hpp:679-689 | the old target is freed and ownership moves; assigning a wrapper to itself changes nothing |
| `HandlerOwnership.AnyCompletionHandler.Clear` | lib/asiolib/include/asio/any_completion_handler.hpp:691-696 | the target is freed, the wrapper is empty |
| `HandlerOwnership.AnyCompletionHandler.Swap` | lib/asiolib/include/asio/any_completion_handler.hpp:717-722 | contents are exchanged, also with itself |
| `HandlerOwnership.AnyCompletionHandler.Destruct` | lib/asiolib/include/asio/any_completion_handler.hpp:698-703 | the owned impl, if any, is destroyed and freed through the matching table |
| `HandlerOwnership.AnyCompletionHandler.Invoke` | lib/asiolib/include/asio/any_completion_handler.hpp:736-756 | an owned target is moved out, its impl freed, and then run; if moving it out throws the impl is freed and the target does not run; an empty wrapper throws; the table stays |
| `HandlerOwnership.Arena.Create` | lib/asiolib/include/asio/any_completion_handler.hpp:90-106 | allocation, then construction; deallocation if the constructor throws, nothing if the allocation does |
| `HandlerOwnership.Arena.CallImpl` | lib/asiolib/include/asio/any_completion_handler.hpp:178-191 | destroy, free, then run, in this order; destroy and free alone if moving the target out throws |

## Left out

- HandlerAllocator.Session: skips requests for which only adding the offset's size wraps, because from then on memory outside the raw allocation has been overwritten; `HandlerMemory.Allocate` says what such a request does.
- Shell commands are atomic steps of the process that issues them; a shell that outlives its killed parent is not modelled.
- Request ids are distinct naturals: `stoi` on millisecond timestamps, formatting, partially written request files and two submissions in one millisecond are not modelled.
- `submit_render` writes the body as one JSON string and validates `objects`, while `parse_request` reads `verts` and `tris` from an object; the models take the decoded pixel list and do not join the two formats.
- CUDA, rendering and `cuda_buffers`: the renderer is assumed to publish counts that do not fall and then -1 after its last access; exclusivity is claimed for the per-slot multi-buffers only.
- `request_size` and the modulus taken of it: placeholder arithmetic whose result is not used.
- The supervisor's `children` vector, its signal handlers and its own death.
- Memory orders: loads and stores of the counter and of the lock flags are sequentially consistent.
- Narrowing of counts to `int` in `pbump` and `gbump`, pointer overflow in `consume`, and putback.
- `basic_socket_streambuf` moves, `close` and re-`connect`: they reset or drop the put area, so conservation is not claimed across them. `timeout` only bounds how long a poll waits.
- Executor, allocator and cancellation-slot association of `any_completion_handler`, and allocation through a wrapper whose impl is gone.
- Impls are numbered by creation; reuse of their addresses by the recycling allocator is not modelled.
- The camera, material, object and mesh validators, middleware and health endpoint: single passes over a value.
