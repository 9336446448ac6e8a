# Verified models of an Android port's native code

This project models, in Dafny, the parts of the repository whose behaviour is
hardest to see from the code: the bundled Boa HTTP server, the tslib touch-screen
filters, Android's camera service and the frame allocator of a camera driver. It
proves what those parts are for.

`dafny verify dfyconfig.toml` checks everything.

## The parts

**Boa, the HTTP server** (`external/boa/src`)

- `ConfigParser` - the bison automaton that reads the configuration, run over its
  own tables, against the grammar: it accepts exactly the grammar's token
  sequences, makes exactly the calls of the longest configuration at the start of
  the input, and never needs more than seven stack entries.
- `RequestQueues`, `EventLoop` - requests on three intrusive doubly linked lists,
  moved while they are being walked, and the descriptor sets given to `select`.
- `OutputBuffer`, `MappedGet`, `PipeRelay`, `HeaderReader`, `PostBody` - bytes on
  their way in and out, as stream equalities over every schedule of short reads,
  short writes, blocking and errors.
- `MmapCache`, `AliasTable` - a reference-counted open-addressing table and a hash
  table of linked lists, against their obvious references.
- `EscapeTable`, `UriCoding`, `EscapedOutput`, `PathCleaning` - the bit-packed
  escape table, percent encoding and in-place decoding, encoded output with its
  guard band, and in-place path cleaning, on the zero-terminated text of
  `CStrings`.

**Touch-screen filters** (`external/tslib/plugins`) - `PressureThreshold`,
`SpikeFilter` and `Dejitter` over the samples of `TouchSamples`, and `FilterChain`,
which follows a stroke through all three.

**Camera service** (`frameworks/base/services/camera`) - `CameraService`, a state
machine whose steps are what one thread does without giving way, for all
interleavings.

**Frame allocator** (`kernel/drivers/media/video/samsung/fimc`) -
`FrameAllocator`, a bump allocator with rollback and the planes in each frame.

`Common` holds bytes, options, buffer sizes and the outcomes of system calls.

## How the models are built

System calls, clocks, allocation and what the network delivers are parameters or
arbitrary choices, so a theorem holds for all of them. Code that works in place is
a class or an array method, proved against a function of its old state; what the
source promises is then proved of that function. Where two threads or the outside
world interleave with the code, a run is a sequence of steps and theorems are about
all runs.  The event loop keeps ghost histories: of the requests it dispatched, of
those it retired, of what every flush and handler returned and of what every call of
`accept` brought, each appended to where that happens and nowhere else.

A specification names what it is about as the outside sees it: descriptors in sets,
bytes in a text, samples of a stream. The functions that the methods are proved
against are ghost.

A clause written `P(x) == true` means `P(x)`; written so, the verifier takes the
predicate whole instead of splitting it.

## Where the code is not what one expects

Each of these is a lemma or an exact condition below.

- `get.c` forgets that writing the headers failed when the whole small file was
  buffered: the request ends as if all was sent (`MappedGet.ForgottenError`).  It
  forgets as well that the headers did not fit.  A default media type of some 8000
  characters is enough: a small file then follows the headers that did fit
  (`MappedGet.HeadersDropped`, `MappedGet.HeadersAfterLongDropped`).
- `cgi_header.c` forgets the first write of a redirection in the same way
  (`PipeRelay.RedirectForgotten`).  Of an ordinary answer it checks only that the
  server header and the script's output fit the buffer together; a header of more
  than half the buffer has run over the output by then
  (`PipeRelay.ScriptRelayedInFull`).  The header `response.c` writes for a script
  (lines 81-97) is short, so this cannot happen as things are.
- A request that times out in the same return of `select` in which the pipe, file
  or socket it waits for is ready is marked dead first, and `ready_request` then
  clears another bit.  The one that was set stays in the set, although nobody waits
  for it any more, while the descriptor is closed (`EventLoop.Server.FdsetUpdate`,
  `EventLoop.Server.DiesSetWhen`, `EventLoop.OutputComesTooLate`).
- The comment in `variance.c` says a suspected sample and its successor both pass;
  in fact the suspected one comes out twice at once exactly if its successor is
  near it, and the one before it never does (`SpikeFilter.QuickMovement`,
  `SpikeFilter.OneTwiceOneNever`).  So a stroke is unchanged exactly if no two
  consecutive presses are far apart (`SpikeFilter.StrokesPass`).
- `alias.c` says an alias is not added twice, but the last of a bucket is never
  compared; that is harmless. An alias for `/` is in the wrong bucket for almost
  every URI (`AliasTable.RootIsMissed`).
- The limit of the mapped-file cache is 129 entries, one more than its constant.
- `buffer.c` reports that it ran out of room only if the room was used up to the
  byte, so text can be cut without an error, and an error can be reported although
  all of it was stored (`EscapedOutput.WriteEscaped`).
- A failed frame allocation gives back regions of frames left over from an earlier
  one (`FrameAllocator.AllocOutput`).  Freeing leaves such frames behind whenever
  an output has fewer than four: room for two, one frame allocated and freed, then
  four asked for, and the pool ends below its start
  (`FrameAllocator.AllocFreeAlloc`, `FrameAllocator.StaleFrameGivenBack`).  Freeing
  with a changed frame count unbalances it too (`FrameAllocator.AllocThenFree`).
- `removeClient` in `CameraService.cpp` clears the slot of the first live client that
  has the caller's binder.  If that is another camera's, the right slot keeps a
  client without hardware, and its camera cannot be opened while that client lives
  (`CameraService.ReopenedIff`).
- With a lower pressure bound of zero the first touch filter lets a release through
  as a press (`PressureThreshold.StrokesIffBound`).

## Model

| member | source | states |
|---|---|---|
| ConfigParser.Parse | external/boa/src/y.tab.c:1145-1653 | for every token sequence the table-driven parser ends, returns 0 exactly if the tokens are a configuration and otherwise 1, and has made exactly the callbacks of the longest configuration at the start of the input, which are those its tokens call for one by one |
| ConfigParser.ParseTree | external/boa/src/y.tab.c:1216-1653 | the same of the loop itself, with the parse tree it has read; the bound on its stack is the row of StackDepth |
| ConfigParser.Step | external/boa/src/y.tab.c:1287-1469 | one turn keeps the correspondence between the stack and the part of the tree read so far, and makes progress; failing, it has found the longest configuration |
| ConfigParser.AcceptedIffConfig | external/boa/src/y.tab.c:505-577 | acceptance is membership in the grammar, and the longest configuration is the only one |
| ConfigParser.CallsByToken | external/boa/src/y.tab.c:1385-1448 | the callbacks of a configuration are those its tokens complete, in order: a command of no arguments, the argument of one, the second argument of two, which is passed before the first, or an extension of the media type last named |
| ConfigParser.Unambiguous | external/boa/src/y.tab.c:505-577 | two parse trees with the same tokens are the same tree |
| ConfigParser.TablesAreAutomaton | external/boa/src/y.tab.c:505-577 | the packed tables, looked up as the parser does, are the automaton written out state by state |
| ConfigParser.NoErrorTransition | external/boa/src/y.tab.c:1566-1590 | no state can shift the error symbol, so recovery always gives up |
| ConfigParser.Recover | external/boa/src/y.tab.c:1566-1602 | recovery pops the whole stack and fails |
| ConfigParser.Reject | external/boa/src/y.tab.c:1475-1602 | at a syntax error the calls made are those of the longest configuration, which is not the whole input |
| ConfigParser.Lookahead | external/boa/src/y.tab.c:1295-1326 | a token is read only in states that look at it, at most once, and nothing else changes |
| ConfigParser.Act | external/boa/src/y.tab.c:1385-1448 | each semantic action makes the calls of the part it completes, with its arguments bound right, although strings live in the scanner's buffer only until the next token |
| ConfigParser.PopAndGoto | external/boa/src/y.tab.c:1450-1469 | after a reduction the stack is the one that belongs to the state entered |
| ConfigParser.ReduceBy | external/boa/src/y.tab.c:1369-1469 | a reduction keeps the correspondence with the tree |
| ConfigParser.ShiftIsReached | external/boa/src/y.tab.c:1326-1356 | so does shifting a token or the end of the input |
| ConfigParser.ErrorIsLongest | external/boa/src/y.tab.c:1475-1510 | where the automaton is stuck, no longer prefix of the input is a configuration |
| ConfigParser.StuckIsLongest | external/boa/src/y.tab.c:1475-1510 | the same of the grammar alone, by a scanner of six places |
| ConfigParser.StackDepth | external/boa/src/y.tab.c:1171-1214 | in every configuration the loop reaches, the stack holds between one and seven states, the current one on top, so it is never relocated |
| RequestQueues.Queue.Dequeue | external/boa/src/queue.c:102-115 | unlinking the k-th node of a well-formed list removes exactly it and leaves the list well formed |
| RequestQueues.Queue.Enqueue | external/boa/src/queue.c:122-131 | linking at the head puts the node in front of all others |
| EventLoop.Server.BlockRequest | external/boa/src/queue.c:36-60 | a ready request moves to the head of the blocked list, and `select` is asked about its socket for writing if output is buffered, and otherwise about the descriptor and direction of its status; all lists stay well formed and disjoint |
| EventLoop.Server.ReadyRequest | external/boa/src/queue.c:69-93 | the way back, clearing just that descriptor |
| EventLoop.Server.NewRequest | external/boa/src/request.c:44-63 | a cleared request, recycled from the head of the free list or freshly allocated, on no list |
| EventLoop.Server.GetRequest | external/boa/src/request.c:72-224 | accept is called once; a connected socket gets a request at the head of the ready list, with the time and the keep-alive count, waiting for its header or done at once if there are too many, unless memory has run out; its descriptor is its own |
| EventLoop.Server.CarryOver | external/boa/src/request.c:290-330 | a kept-alive connection goes on as a new blocked request on the same descriptor with one request less to go; it fails only if the free list is empty |
| EventLoop.Server.Finish | external/boa/src/request.c:288-369 | a request off the ready list is either carried over, which only keep-alive allows, or its connection is closed and no longer counted; a kept-alive one is only closed if the free list is empty; either way it is retired, once |
| EventLoop.Server.FreeRequest | external/boa/src/request.c:234-369 | a request with output left only becomes done and is not retired; any other leaves the ready list and is finished |
| EventLoop.Server.Drain | external/boa/src/request.c:397-449 | buffered output is flushed once: an error ends the request, blocked means nothing changed, what is left keeps it going, and nothing left ends only one that is done |
| EventLoop.Server.Dispatch | external/boa/src/request.c:397-470 | one turn, written down as such, flushes buffered output or else calls the handler, once, and its result is theirs; it keeps all lists, counters and descriptors right whatever the handler did to the request before blocking, going on or finishing; a dead request is over |
| EventLoop.Server.Serve | external/boa/src/request.c:395-480 | a turn, and exactly one accept behind it while connections are pending, leave the rest of the pass at the end of the ready list |
| EventLoop.Server.Settle | external/boa/src/request.c:481-499 | the successor is found before the node is relinked; the node is blocked and watched, retired or left with the time noted, exactly as the handler said |
| EventLoop.Server.ServeAll | external/boa/src/request.c:391-499 | the pass ends; what it adds to the log of dispatches is the ready list it began with, each request once and in order, while nodes are unlinked, recycled and added; every one that was dead has been retired |
| EventLoop.Server.ProcessRequests | external/boa/src/request.c:381-499 | the same from the accept on, which is made if connections are pending, with at most one new connection in front; every request that was ready and dead is retired by this pass |
| EventLoop.Server.UpdateOne | external/boa/src/select.c:118-178 | a blocked request is woken exactly if it has timed out, is dead or what it waits for has come - with output buffered, that its socket can be written - and otherwise watched again; no other request is disturbed; what it waited for stays set, unwatched, exactly if it dies while that is set |
| EventLoop.Server.FdsetUpdate | external/boa/src/select.c:111-182 | all blocked requests are treated so, whatever their number and order, and every one left blocked is watched and within the descriptor bound; if the sets named nothing but the server's socket and what blocked requests wait for, they still do exactly if none of them dies while its data descriptor is set |
| EventLoop.Server.DiesSetWhen | external/boa/src/select.c:118-178 | which requests those are: ones that time out without buffered output while the pipe, the body's file or the socket they want to write to is ready |
| EventLoop.Server.StrandedIsStray | external/boa/src/queue.c:69-93 | what such a request waited for is then set although no blocked request waits for it |
| EventLoop.Server.Wake | external/boa/src/select.c:61-66 | the examination before a pass: every request that must wake is ready, those that timed out are dead, and the sets are tidy under the same condition |
| EventLoop.OutputComesTooLate | external/boa/src/select.c:118-178 | an input for which the sets are not tidy any more: a script's output that comes when its request has just timed out |
| EventLoop.Server.BeforeSelect | external/boa/src/select.c:42-80 | when select is called it is asked about every blocked request: the socket for writing while output is buffered or the status needs it, the script's pipe, the body's file, or else the socket for reading; and about the server's own socket unless it is stopping or full; in the iteration every request that had to wake has been served and every one that had died or timed out retired; the sets name nothing but the server's socket and what blocked requests wait for, if no request died while its data descriptor was set |
| EventLoop.Server.SelectLoop | external/boa/src/select.c:33-93 | after any number of iterations, with a termination signal at any of them, the three lists are well formed and disjoint, total_connections is the number of ready and blocked requests, and live requests share no descriptor |
| EventLoop.Server.OthersUndisturbed | external/boa/src/select.c:118-178 | changes to one request's descriptors leave the watching of all others alone, because live descriptors are distinct |
| EventLoop.Server.ExchangeDescriptors | external/boa/src/request.c:408-470 | descriptors stay distinct when a handler closes some and takes others, even if the kernel hands out a number just closed |
| OutputBuffer.FlushConserves | external/boa/src/buffer.c:172-210 | flushing moves bytes from the buffer to the client and loses none unless the connection dies |
| OutputBuffer.WrittenAllFits | external/boa/src/buffer.c:37-55 | messages that fit are appended in full and in order |
| OutputBuffer.KeptBounds | external/boa/src/buffer.c:37-55 | of any messages the buffer keeps a beginning: all of them exactly if they fit, and never more than its size |
| OutputBuffer.Reply.ReqWrite | external/boa/src/buffer.c:37-55 | in place: appends, or kills a request whose buffer would overflow |
| OutputBuffer.Reply.ReqFlush | external/boa/src/buffer.c:172-210 | in place: any number of bytes may go |
| MappedGet.Delivered | external/boa/src/get.c:189-289 | a file transfer that is released without being dead has sent exactly the headers and the file, for every schedule of writes, exactly if the headers fit the buffer and the first write of an answer that fits it whole did not fail |
| MappedGet.SentIsPrefix | external/boa/src/get.c:189-289 | at every moment of every run, of a live request or a dead one, what was sent is a beginning of the headers that the buffer kept and the file, so of the whole answer if the headers fit |
| MappedGet.HeadersDropped | external/boa/src/get.c:189-221 | without that it is not: behind headers that do not all fit, a small file follows those that did, for every schedule that is released without dying, and enough writes lead to such a release |
| MappedGet.HeadersAfterLongDropped | external/boa/src/response.c:81-97 | one message too long for the rest of the buffer, short ones before and behind it: only those before it are sent, then the file |
| MappedGet.ForgottenError | external/boa/src/get.c:205-221 | a failed first flush of a small file ends in a release with nothing sent |
| MappedGet.RunKeepsStream | external/boa/src/get.c:236-289 | what is sent, buffered and still to be sent is the same in all states of a run |
| MappedGet.EventuallyReleased | external/boa/src/get.c:236-289 | enough writes that take at least a byte release the request |
| MappedGet.InitGet | external/boa/src/get.c:189-223 | in place: the headers and as much of the file as fits are buffered |
| MappedGet.ProcessGetStep | external/boa/src/get.c:236-289 | in place: one write of the rest |
| MappedGet.TurnStep | external/boa/src/request.c:397-449 | in place: drain the buffer before anything else, then the handler, then the release |
| MappedGet.RunSteps | external/boa/src/request.c:391-499 | in place: any number of turns and a timeout between any two are a run |
| MappedGet.ServeFile | external/boa/src/get.c:189-289 | in place, from the set-up to the release: what is sent is all of headers and file exactly under the condition of Delivered |
| PipeRelay.ScriptRelayed | external/boa/src/pipe.c:37-136 | for every output, header and schedule the client of a script that is released without being dead has got exactly one of these, decided by the bytes of the output: the error page, if no line feed in its first half buffer, before any zero byte, is followed by another or by carriage return and line feed; a status line in place of a leading "Status: " in either case, then the rest (section 6.3.3 of RFC 3875); the redirection for a leading "Location: ", or nothing if its first write failed; the error page if header and output do not fit; or server header and output, with what a long header ran over replaced; before the end it has a beginning of that |
| PipeRelay.ScriptArrives | external/boa/src/pipe.c:37-136 | enough reads and writes that make progress release such a request, not dead and with all of that sent, unless neither the output nor the pages fit |
| PipeRelay.HeaderFound | external/boa/src/cgi_header.c:60-71 | the two string searches find a blank line exactly if the bytes have one before any zero byte |
| PipeRelay.FieldsFound | external/boa/src/cgi_header.c:82-85 | the comparisons find "Status: " and "Location: " exactly if the bytes have these letters in either case |
| PipeRelay.ScriptRelayedInFull | external/boa/src/cgi_header.c:136-173 | the output arrives in full behind the server header exactly if the header fits half the buffer, or both fit the buffer and the bytes run over happen to be the same |
| PipeRelay.PageArrives | external/boa/src/cgi_header.c:63-135 | a page in place of the output arrives in full exactly if it fits the buffer; an error page that arrives always does |
| PipeRelay.RedirectForgotten | external/boa/src/cgi_header.c:85-135 | a redirection whose first write fails ends in a release as done with nothing sent |
| PipeRelay.FileRelayed | external/boa/src/get.c:146-155 | a file too large to map is relayed in full behind its headers, for every schedule that is released without dying, exactly if the headers fit the buffer |
| PipeRelay.FileArrives | external/boa/src/pipe.c:37-136 | and enough reads and writes that make progress relay it in full |
| PipeRelay.RunKeepsInv | external/boa/src/pipe.c:37-136 | what is sent, buffered, in the ping-pong buffer and still unread always adds up to the expected stream, or what is sent and buffered to the error page |
| PipeRelay.HeaderStep | external/boa/src/cgi_header.c:51-175 | processing the header starts the relay of exactly the expected stream, or the error page |
| PipeRelay.Merge | external/boa/src/cgi_header.c:136-173 | in place: the server header and the held output become one buffer, in this order, or the error page takes their place |
| PipeRelay.WriteHeader | external/boa/src/cgi_header.c:136-141 | in place: writing the server header leaves of the held output what it did not run over |
| PipeRelay.RewriteStatus | external/boa/src/cgi_header.c:82-84 | in place: the status field gives way to the HTTP version |
| PipeRelay.ProcessCgiHeaderStep | external/boa/src/cgi_header.c:51-175 | in place: all branches of the header |
| PipeRelay.ReadFromPipeStep | external/boa/src/pipe.c:37-92 | in place: a read into the free part, or the end of the output |
| PipeRelay.WriteFromPipeStep | external/boa/src/pipe.c:103-136 | in place: a write of the held part |
| PipeRelay.RunSteps | external/boa/src/request.c:391-499 | in place: any number of turns and a timeout between any two are a run |
| PipeRelay.ServeScript | external/boa/src/pipe.c:37-136 | in place, from the first read to the release: what ScriptRelayed says |
| HeaderReader.ScanMeetsReference | external/boa/src/read.c:39-252 | at every byte the status machine agrees with the stream: while it scans no header has ended and it has delivered exactly the complete lines, without their carriage returns (appendix B of RFC 1945); it ends exactly at the first line feed, carriage returns, line feed |
| HeaderReader.BlankLineAt | external/boa/src/read.c:57-92 | where a header can end, said of the bytes since the last line feed |
| HeaderReader.ReadsDoNotMatter | external/boa/src/read.c:39-252 | two ways of cutting one stream into reads decide at the same byte with the same lines |
| HeaderReader.LinePointers | external/boa/src/read.c:57-131 | the pointers to a line's start and end stay within what has been scanned, and the end is never before the start |
| HeaderReader.HeaderRequest.ScanOne | external/boa/src/read.c:55-190 | in place: one byte, writing at most a terminator behind the line, never an unscanned byte |
| HeaderReader.HeaderRequest.ReadHeaderStep | external/boa/src/read.c:39-252 | in place: scan what has arrived, then one read; a full buffer without a header's end kills the request |
| HeaderReader.HeaderRequest.CarryOver | external/boa/src/request.c:312-323 | the unscanned bytes, and only those, start the next request's stream |
| HeaderReader.ServeConnection | external/boa/src/read.c:39-252 | over a kept-alive connection the reads do exactly what the reference does: the header blocks cut the client's stream, however reads fall, and where serving stops no further block ends in the bytes scanned: at the end of the stream none is missing, at an overflow the next 8192 bytes hold none, and a refusal or early answer is the first byte to settle the request; reads that bring bytes are no more than the bytes and blocks they brought |
| HeaderReader.ServeRequests | external/boa/src/read.c:39-252 | the loop over requests and reads, in place, has the blocks, the reason and the byte counts of the reference |
| HeaderReader.ServeCuts | external/boa/src/read.c:39-252 | what the reference does cuts the stream into its header blocks and stops for the reason it gives |
| HeaderReader.StopsHere | external/boa/src/read.c:54-193 | the machine stops at the first byte where a header ends or a handler refuses or answers the lines so far |
| HeaderReader.OneCut | external/boa/src/read.c:39-252 | there is only one such cut |
| PostBody.BodyStored | external/boa/src/read.c:273-377 | in every run filepos is at most Content-Length, the file holds exactly the first filepos bytes of the body in order, those that came with the headers included, and a script that starts finds exactly Content-Length bytes (section 8.3 of RFC 1945) |
| PostBody.ScriptStartsWhenComplete | external/boa/src/read.c:333-377 | the script starts exactly when the body is complete |
| PostBody.NothingRead | external/boa/src/read.c:273-320 | a body that came entirely with the headers needs no read |
| PostBody.TurnMakesProgress | external/boa/src/read.c:273-377 | reads and writes of at least a byte bring the end nearer |
| PostBody.BodyArrives | external/boa/src/read.c:273-377 | so enough of them store an accepted body that is sent whole, and start the script on exactly its announced bytes |
| PostBody.AcceptedIff | external/boa/src/read.c:157-190 | a body is accepted exactly if its announced length is positive and within the limit, if there is one; another is left alone in every run |
| PostBody.PostRequest.WriteBodyStep | external/boa/src/read.c:333-377 | in place: one write to the file |
| PostBody.PostRequest.ReadBodyStep | external/boa/src/read.c:273-320 | in place: one read, never past Content-Length |
| PostBody.PostRequest.RunSteps | external/boa/src/request.c:391-499 | in place: any number of turns are a run |
| PostBody.StoreBody | external/boa/src/read.c:273-377 | in place, from the header's end on: what BodyStored says |
| MmapCache.NeverWraps | external/boa/src/mmap_cache.c:38-57 | there is always a slot to stop at, so the probe never comes round |
| MmapCache.CountersAgree | external/boa/src/mmap_cache.c:32-100 | in every history of look-ups and releases by requests, the counter is the number of slots in use and of mappings, at most 129; each use count is the number of requests that remember the slot; and they add up to the requests that remember one |
| MmapCache.RememberedIsHeld | external/boa/src/request.c:250-251 | a slot that a request remembers is in use, so a release never meets a count of zero |
| MmapCache.HeldStaysTheSame | external/boa/src/mmap_cache.c:32-100 | while a slot is in use its key and mapping do not change and the file stays mapped |
| MmapCache.RequestKeepsItsFile | external/boa/src/get.c:169-181 | from a request's look-up to its release the slot it remembers has the same file, mapped at the same place |
| MmapCache.LookUpIsRight | external/boa/src/mmap_cache.c:32-84 | a look-up that succeeds gives a mapped slot of the right file, used once more; a file is mapped anew only if no held slot before the first free one has it; a look-up fails only if the table is full or mmap fails |
| MmapCache.Cache.FindMmap | external/boa/src/mmap_cache.c:32-84 | in place: the new table, counters and mappings |
| MmapCache.Cache.ProbeLoop | external/boa/src/mmap_cache.c:38-57 | the loop stops at the first slot in probe order that is free or has the key |
| MmapCache.Cache.ReleaseMmap | external/boa/src/mmap_cache.c:86-100 | in place: the last release unmaps; releasing a free slot changes nothing |
| MmapCache.Cache.TakeEntry | external/boa/src/get.c:169-181 | in place: the request remembers the slot the look-up gave, and the counts still agree |
| MmapCache.Cache.GiveEntryBack | external/boa/src/request.c:250-251 | in place: a freed request gives its slot back once and forgets it, and the counts still agree |
| AliasTable.FindIsScan | external/boa/src/alias.c:134-180 | for any sequence of additions a look-up gives what scanning all aliases in order gives, exactly unless that is the alias "/" and the URI is in another bucket |
| AliasTable.WithoutRoot | external/boa/src/alias.c:134-180 | without an alias "/" the table is as good as the list |
| AliasTable.SameBucket | external/boa/src/alias.c:40-51 | a matching alias hashes to the URI's bucket, exactly unless it is "/" and the URI's first part does not sum up right |
| AliasTable.RepeatsDoNotMatter | external/boa/src/alias.c:80-89 | leaving out repeated names, except of a bucket's last entry, does not change what is found |
| AliasTable.RootIsMissed | external/boa/src/alias.c:134-180 | an alias for "/" is not found for "/a" |
| AliasTable.HashValue | external/boa/src/alias.c:40-51 | the loop computes the hash of the name up to its second slash, with word wrap-around and signed or unsigned characters |
| AliasTable.Table.Add | external/boa/src/alias.c:60-122 | in place: the linked lists hold what adding the aliases in order puts there |
| AliasTable.Table.FindAlias | external/boa/src/alias.c:134-180 | the walk of the bucket gives its first match |
| EscapeTable.BuildNeedsEscape | external/boa/src/escape.c:44-80 | the bit-packed table says of each of the 256 characters whether it needs escaping |
| EscapeTable.ClearOne | external/boa/src/escape.h:34-44 | clearing a character's bit changes no other character's |
| EscapeTable.SpecialIsPassed | external/boa/src/escape.c:48-54 | the listed characters are exactly those that pass through (section 2.3 of RFC 2396 and some reserved ones) |
| UriCoding.EscapeString | external/boa/src/buffer.c:231-259 | the buffer holds the encoding and its terminator, at most three times as long as the text; no buffer and no memory, or no text, gives none |
| UriCoding.UnescapeUri | external/boa/src/util.c:292-335 | in place: the decoded text, its terminator and the offset of the query, which is still there unchanged; failure exactly if an escape is cut short |
| UriCoding.RoundTrip | external/boa/src/util.c:292-335 | decoding an encoded string gives the string up to its first question mark and points to the encoding of what follows |
| UriCoding.HexRoundTrip | external/boa/src/util.c:28-30 | the two digits of a character decode to it |
| UriCoding.DigitsDecode | external/boa/src/util.c:28-30 | any two hexadecimal digits, in upper or lower case, decode to the character they number |
| UriCoding.DecodesPieces | external/boa/src/util.c:292-335 | any text is plain characters and escapes, and then its end, a query, a fragment or an escape cut short; what is decoded is what these mean one by one, with the query behind the first question mark after them, and it fails exactly for the cut escape |
| UriCoding.UnchangedIffPlain | external/boa/src/buffer.c:231-259 | a text is its own encoding exactly if it has no character to escape, and no encoding has one but the sign itself |
| UriCoding.NeverLonger | external/boa/src/util.c:292-335 | writing never overtakes reading, whatever the text |
| EscapedOutput.WriteEscaped | external/boa/src/buffer.c:69-161 | what is appended is the encoding of a prefix and fits the buffer; it is all of the text exactly if all but its last character leave room, and otherwise ends with the first character that leaves none; an error is reported exactly if some prefix uses the room up to the byte |
| EscapedOutput.Outcome | external/boa/src/buffer.c:90-96 | where the loop stops, said beforehand |
| EscapedOutput.SilentlyCut | external/boa/src/buffer.c:81-96 | two spaces, and room for one byte: the text is cut after one of them and no error is reported |
| EscapedOutput.NeedlessError | external/boa/src/buffer.c:81-102 | two spaces, and room for just their encoding: all is stored and an error is reported |
| EscapedOutput.HtmlReadsBack | external/boa/src/buffer.c:106-161 | what is written into HTML reads back as the text, and holds no angle bracket or quotation mark |
| EscapedOutput.HttpIsEscape | external/boa/src/buffer.c:69-97 | what is written into headers is the percent encoding of the text |
| PathCleaning.CleanPathname | external/boa/src/util.c:46-70 | in place and in one pass: the buffer holds what the left-to-right normaliser gives, and its terminator |
| PathCleaning.CleanIsClean | external/boa/src/util.c:46-70 | no slash of the result is followed by a slash, "./" or "../", said of its bytes |
| PathCleaning.UnchangedIffClean | external/boa/src/util.c:46-70 | a path is unchanged exactly if none of its slashes is |
| PathCleaning.CleanTwice | external/boa/src/util.c:46-70 | cleaning twice is cleaning once |
| PathCleaning.CleanIsNormalForm | external/boa/src/util.c:46-70 | taking such pieces out one by one, in any order, until none is left ends in the result and nothing else; so cleaning takes out nothing else |
| PressureThreshold.Threshold.Read | external/tslib/plugins/pthres.c:33-84 | in place, with its memmove: the samples kept are what filtering the batch in order gives, and the pen's state is handed on |
| PressureThreshold.BatchesDoNotMatter | external/tslib/plugins/pthres.c:40-81 | filtering in batches is filtering at once |
| PressureThreshold.OutputInStrokes | external/tslib/plugins/pthres.c:45-80 | with a positive lower bound the output is strokes, each release is where the pen last pressed, the presses are exactly the samples within bounds, and the releases are, with their times, those of exactly the light samples that met a pen that was down |
| PressureThreshold.SampleBySample | external/tslib/plugins/pthres.c:45-80 | for every bound and stream: what comes out for each sample, from the samples before it alone; the pen is down exactly if the last sample that is not too heavy was heavy enough |
| PressureThreshold.StrokesIffBound | external/tslib/plugins/pthres.c:45-80 | for all inputs the output is strokes exactly if the lower bound is positive |
| SpikeFilter.Variance.ReadSamples | external/tslib/plugins/variance.c:51-120 | the samples, the memory and the amount read are those of one read of the filter |
| SpikeFilter.ReadsDoNotMatter | external/tslib/plugins/variance.c:57-119 | for every sequence of read sizes and interruptions what has come out is the beginning of the stream's output, and the rest is still to come |
| SpikeFilter.ReadsGetAll | external/tslib/plugins/variance.c:57-119 | a caller who goes on asking gets all of it |
| SpikeFilter.StrokesPass | external/tslib/plugins/variance.c:51-120 | every finished stroke comes out as at least one press, all of that stroke and never going back, then its release, once; it comes out unchanged exactly if every two consecutive presses are within the threshold |
| SpikeFilter.UnchangedIffSteady | external/tslib/plugins/variance.c:88-116 | the same of the rest of a stroke: what comes out is what is held and what follows exactly if each press is near the one before it |
| SpikeFilter.SuspicionLoses | external/tslib/plugins/variance.c:95-112 | once a press is suspected, either it or the one before it does not come out in its place |
| SpikeFilter.QuickMovement | external/tslib/plugins/variance.c:95-112 | at a quick movement the suspected press comes out, and a second time at once exactly if the new press is within the threshold of it; the press before it is no longer held |
| SpikeFilter.TailPasses | external/tslib/plugins/variance.c:51-120 | an unfinished stroke lets only its own presses out, in order |
| SpikeFilter.SpikeIsDropped | external/tslib/plugins/variance.c:88-112 | an isolated spike leaves no trace in the whole later output |
| SpikeFilter.DeadNoise | external/tslib/plugins/variance.c:88-112 | a suspected sample that was cleared has no influence any more |
| SpikeFilter.OneTwiceOneNever | external/tslib/plugins/variance.c:95-116 | an input whose second sample comes out twice and whose first never does |
| Dejitter.Ring.Read | external/tslib/plugins/dejitter.c:105-156 | in place: the ring of four does what the window of the presses since the last reset does |
| Dejitter.Ring.WeightedSums | external/tslib/plugins/dejitter.c:80-103 | the walk backwards through the ring gives the weighted average of the window |
| Dejitter.BatchesDoNotMatter | external/tslib/plugins/dejitter.c:105-156 | filtering in batches is filtering at once |
| Dejitter.SampleBySample | external/tslib/plugins/dejitter.c:80-156 | for every threshold and stream: a sample comes out as the average, with the weights of the table, of the last two, three or four presses that followed each other within the threshold, and as it is if there are none before it or it is a release |
| Dejitter.OutputStaysNear | external/tslib/plugins/dejitter.c:80-156 | one sample out for each in; releases unchanged; presses stay presses, each coordinate within 19/16 of the threshold and rounding of where it was |
| Dejitter.AverageNearNewest | external/tslib/plugins/dejitter.c:50-58 | the exact bounds of the weighted average |
| Dejitter.PressesStayInside | external/tslib/plugins/dejitter.c:80-156 | averaging never leaves the rectangle the window is in |
| Dejitter.StrokesSmoothed | external/tslib/plugins/dejitter.c:112-120 | strokes are smoothed one by one: none reaches into another |
| FilterChain.StrokesSurvive | external/tslib/plugins/variance.c:51-120 | through all three filters one finished stroke arrives for each sample of the raw stream that lifts the pen, in order, with the release of that time and with no press outside the rectangle of its own presses |
| CameraService.StepKeepsInv | frameworks/base/services/camera/libcameraservice/CameraService.cpp:113-195 | every step of connect, removeClient, disconnect, lock, unlock, the reference counts and the destructor keeps the invariant |
| CameraService.RunKeepsInv | frameworks/base/services/camera/libcameraservice/CameraService.cpp:113-195 | so it holds in every state of every interleaving |
| CameraService.OneOpenHandlePerCamera | frameworks/base/services/camera/libcameraservice/CameraService.cpp:113-160 | at most one hardware handle per camera is open |
| CameraService.OpensOnlyWhenReleased | frameworks/base/services/camera/libcameraservice/CameraService.cpp:142-158 | the hardware is opened only when no handle of the camera is open, its busy bit is clear and no client is giving it back, even if removeClient cleared another client's slot |
| CameraService.TornDownOnce | frameworks/base/services/camera/libcameraservice/CameraService.cpp:441-479 | every handle ever opened is either open or torn down, and torn down once |
| CameraService.AllGoneAllReturned | frameworks/base/services/camera/libcameraservice/CameraService.cpp:340-361 | when all clients are destroyed, unlocked or not, every handle has been torn down |
| CameraService.Connects | frameworks/base/services/camera/libcameraservice/CameraService.cpp:113-160 | in every state of every run in which nobody connects, the id is valid, the camera is not busy and its slot has no live client, connect can go through all its steps, and ends with a new live client of the caller in the slot and a new handle open on that camera, all else being as it was |
| CameraService.ConnectRefused | frameworks/base/services/camera/libcameraservice/CameraService.cpp:113-141 | in every other state it opens nothing: an invalid id changes nothing, a live client keeps its slot, a busy camera only loses a dead client's slot |
| CameraService.HardwareFails | frameworks/base/services/camera/libcameraservice/CameraService.cpp:142-146 | hardware that does not open leaves no handle, client or busy bit behind |
| CameraService.Disconnects | frameworks/base/services/camera/libcameraservice/CameraService.cpp:441-479 | in every state of every run in which nobody connects, a disconnect under the client's pid, or its destructor's, can go through all its steps, and ends with exactly its handle torn down, its camera free and the slots as the loop of removeClient leaves them |
| CameraService.ReopenedIff | frameworks/base/services/camera/libcameraservice/CameraService.cpp:162-193 | after a live client has disconnected, its camera can be opened again exactly if no earlier slot has a live client with its binder |
| CameraService.LastReferenceReturns | frameworks/base/services/camera/libcameraservice/CameraService.cpp:340-361 | dropping the last reference can always be followed through to a destroyed client whose handle, if it had one, is torn down and whose camera is free |
| CameraService.TakenAndDropped | frameworks/base/services/camera/libcameraservice/CameraService.cpp:126-137 | dropping a reference that was just taken changes nothing |
| CameraService.HandOver | frameworks/base/services/camera/libcameraservice/CameraService.cpp:384-413 | a client that its owner unlocks and another process locks belongs to that one: calls of all others to disconnect, unlock, lock or reconnect it change nothing |
| CameraService.TakenOver | frameworks/base/services/camera/libcameraservice/CameraService.cpp:417-438 | an unlocked client belongs to whoever reconnects to it, with the new binder |
| FrameAllocator.GetBufferSize | kernel/drivers/media/video/samsung/fimc/s3c_fimc_cfg.c:232-270 | the least number of whole pages that holds the picture |
| FrameAllocator.Pool.GetRegion | kernel/drivers/media/video/samsung/fimc/s3c_fimc_cfg.c:24-39 | a region from the end of the used part, or zero and nothing changed |
| FrameAllocator.Output.Alloc | kernel/drivers/media/video/samsung/fimc/s3c_fimc_cfg.c:63-136 | succeeds exactly if all frames fit; frames lie one after the other and the remaining ones repeat them; a failure gives back exactly what the rollback loop counts |
| FrameAllocator.Output.Free | kernel/drivers/media/video/samsung/fimc/s3c_fimc_cfg.c:46-61 | a region is given back for every frame with an address, and those frames are cleared |
| FrameAllocator.AllocOutput | kernel/drivers/media/video/samsung/fimc/s3c_fimc_cfg.c:289-306 | succeeds exactly if all frames fit, one size after the other; a failure at the first frame that does not fit gives back one region too many for each later frame left over from before, so it restores the pool exactly if there is none |
| FrameAllocator.AllocThenFree | kernel/drivers/media/video/samsung/fimc/s3c_fimc_cfg.c:46-136 | allocating succeeds exactly if all frames fit; freeing then gives back as many regions as the new frame count, which restores the pool exactly if the count is the same, or frames are empty |
| FrameAllocator.AllocFreeAlloc | kernel/drivers/media/video/samsung/fimc/s3c_fimc_cfg.c:46-136 | allocating, freeing and allocating another number of frames: when each succeeds, and that a failure restores the pool exactly if the frames behind the one that did not fit are within the earlier number |
| FrameAllocator.StaleFrameGivenBack | kernel/drivers/media/video/samsung/fimc/s3c_fimc_cfg.c:46-136 | an input for which it does not: one frame, then four, with room for two, leave the pool below its start |
| FrameAllocator.Layout | kernel/drivers/media/video/samsung/fimc/s3c_fimc_cfg.c:92-119 | every frame, the last one and a single one included, lies inside the pool's taken part with two or four bytes for each pixel, or its planes inside it one after the other |
| FrameAllocator.FramesDisjoint | kernel/drivers/media/video/samsung/fimc/s3c_fimc_cfg.c:92-119 | no two frames overlap |
| FrameAllocator.TailRepeats | kernel/drivers/media/video/samsung/fimc/s3c_fimc_cfg.c:80-84 | the remaining addresses repeat modulo the frame count |

## Left out

- EventLoop.Server.Handle: does not say what the individual handlers do to a request, because the event loop has to be right whatever they do: they may change its state, close, keep or take descriptors, and then block, go on or finish; four of them are the subject of other modules.
- EventLoop.Server.Accept: does not model the peer's address or the socket options; a connection may be refused for any of the reasons the code has.
- EventLoop.Server.SelectLoop: the loop is endless in the source and stopped after any number of iterations here, which is also where the second stage of a termination signal ends it; the first stage is noticed between iterations, and the other signals are not modelled.
- PipeRelay.ScriptRelayed: does not cover HTTP/0.9 and HEAD requests; the texts of the error page and of the redirection are parameters.
- MappedGet.Delivered: takes the file to be mapped; directories, conditional requests and the text of the headers are parameters.
- HeaderReader.ServeConnection: speaks of completed header blocks; a kept-alive request whose option line is refused is answered without the rest of its header being read, and is not followed further.
- HeaderReader.ScanMeetsReference: what the line handlers decide is an arbitrary function of the lines so far; the fixed-size array for the request's media type is not part of this model.
- UriCoding.UnescapeUri: characters are unsigned, as on the target; a signed `char` would change what invalid digits decode to.
- EscapedOutput.WriteEscaped: the same, for the two digits of characters above 127.
- MmapCache.TakeKeepsCounts: takes a request to look up at most once, as `init_get` does; `find_named_mmap` is not part of this model.
- SpikeFilter.Variance.ReadSamples: coordinates, distances and thresholds are mathematical integers, here and in the other touch filters.
- FrameAllocator.Output.Alloc: addresses and sizes are mathematical integers, and virtual addresses, which mirror the physical ones, are not modelled.
- CameraService.StepKeepsInv: overlays, surfaces, sounds, parameters and the callbacks from the hardware are not modelled; process ids of callers are positive. It is a state machine and not a class because its steps are those of several threads.
- ConfigParser.Parse: the scanner is not modelled, tokens are the input; the error counters, which no run changes before the error that ends it, and the relocation of a full stack, which never happens, have no variables.
- AliasTable.Table.Add: the resolution of a relative target is not modelled, the target stored is a parameter; running out of memory ends the program.
- Boa's response texts, logging, dates, the CGI environment, directory listings, configuration setters and the media-type and password tables, which are smaller versions of the alias table.
- tslib's raw drivers, module loading, the linear calibration and the test programs.
- Camera overlay, surface, parameter and sound forwarding, the hardware layer behind it and `dump`.
- FIMC register writes, V4L2 calls, sensor tables and the other drivers.
