# MiniCache in Dafny

MiniCache is a single-threaded, cooperatively scheduled content cache: an HTTP server that serves files
from SHFS volumes. This project models the parts of it whose correctness is hardest to see from the code
and proves what they promise.

| files | what they model |
|---|---|
| `Lists.dfy`, `Arith.dfy` | facts about duplicate-free sequences and about division |
| `DList.dfy` | the pointer updates of the doubly linked lists |
| `CacheModel.dfy`, `CacheProofs.dfy`, `CacheRuns.dfy`, `ChunkCache.dfy` | the chunk cache: its operations as a state machine with the device and its clients, the invariant, whole runs, and the object that performs the operations in place |
| `CacheRetention.dfy`, `CacheReadahead.dfy` | what stays in the cache and what leaves it, in which order; what read-ahead loads |
| `Fio.dfy`, `FioRuns.dfy`, `FileRequest.dfy` | serving a file through a ring of cache buffers, over every interleaving of send space, I/O completion, retry, acknowledgement and the cache's other clients; the object with its loops |
| `Session.dfy`, `Ack.dfy`, `Range.dfy` | handing bytes to TCP, the resumable header, the phases of a response; acknowledgement accounting; byte ranges |
| `Serving.dfy`, `Sharing.dfy`, `Pipelined.dfy` | a file response from its range to its close, with device completions and acknowledgements; any number of requests on one cache; two pipelined ones as objects |
| `HttpMachine.dfy`, `HttpParser.dfy`, `HttpCount.dfy`, `HttpInvariant.dfy`, `HttpExecute.dfy`, `HttpCuts.dfy`, `HttpLimit.dfy` | the HTTP parser: one byte at a time, as it works on buffers, the count behind the header limit, its invariant, cut-independence, the limit over all cuttings |
| `HttpChunked.dfy`, `HttpMessages.dfy`, `HttpHeaders.dfy`, `HttpRequests.dfy`, `HttpResponses.dfy`, `HttpFed.dfy` | what the parser makes of messages: bodies, request and status lines, headers, whole requests, fed in any cutting |
| `HttpUrls.dfy`, `HttpGrammar.dfy`, `HttpLines.dfy`, `HttpStatus.dfy` | exactly which URLs, request lines, header lines and status lines it takes |
| `HttpFraming.dfy`, `HttpOptions.dfy`, `HttpFolds.dfy`, `HttpTrailers.dfy`, `HttpSwitch.dfy` | where messages end and whether another follows, against RFC 7230; lists of options, folded lines, chunk extensions and trailers, changes of protocol |
| `Remount.dfy` | open files against the online remount |
| `Stripe.dfy`, `StripeIo.dfy`, `Alloc.dfy` | volume layout, chunk I/O, extent allocation |
| `HashTable.dfy`, `AdminTable.dfy`, `Digests.dfy`, `FileRead.dfy` | the file table in memory and on the device, digest operations, synchronous reads |

`dafny verify dfyconfig.toml` checks all of it.

How the pieces fit: a state machine (pure functions over a record) carries the invariants and the theorems
about whole runs. A class performs the same operations step by step on its own fields, arrays and linked
lists; a ghost field or function gives the state of the machine it stands for, and each method is proved to
be a step, or a run of steps, of the machine. The parser machine takes one byte at a time and knows no
buffers; the class that scans buffers with marks and counts header bytes is proved to agree with it.

Where the code does not do what its documentation or callers expect, the model follows the code, gives an
input that shows it, and proves exactly when the expectation is met:

- An empty file leaves an extent of length 0 on the allocator's list, and the search takes it for an
  obstacle (shfs-tools/shfs_alloc.c:155-185): `Alloc.EmptyFileBlocks` is a volume with five free chunks in
  a row where no place for four is found. First-fit is right for a length exactly when no empty extent lies
  inside the lowest free place (`Alloc.FirstFitExact`), for every length under the condition of
  `Alloc.AlwaysRight`, in particular when no extent is empty (`Alloc.NonEmptyRight`).
- The header limit of the parser depends on how the input is cut, because a piece that ends inside a header
  name or value counts one byte twice (http_parser.c:696-697, 1428, 1697): `HttpFed.CutMatters` and
  `HttpFed.ValueCutMatters` are inputs that are taken in two pieces and refused in many. Every cutting lies
  between the whole input, which is the hardest to refuse, and its single bytes
  (`HttpLimit.WholeBest`, `HttpLimit.SinglesWorst`), so the cuts do not matter exactly when these two agree
  (`HttpLimit.CutsAgree`).
- A request whose header and body are acknowledged before its footer is sent is closed at once, because
  `httpreq_len` leaves the footer out (http.c:1065-1090); the footer's acknowledgement then finds no
  request. `Ack.FinishExact` says exactly when, `Ack.FooterLost` gives the runs.
- Without keep-alive every acknowledgement of a queued request reports it done (http.c:1325-1339):
  `Ack.DoneAfterOneByte`, `Ack.AckWithoutKeepalive`. The request is then closed, and
  `Serving.AckThenDone` says exactly when that gives back a buffer with bytes in flight.
- A range on an empty file is accepted, since the last byte wraps to 2^64 - 1; ranges of one byte and
  ranges that end behind the file are refused (http_fio.h:206-240): `Range.InsideIffNotEmpty`,
  `Range.OneByteRefused`, `Range.RefusedExactly`.
- Bytes from 128 on count as the hexadecimal digit 0 in chunk sizes, because only 128 entries of the digit
  table are written out (http_parser.c:224-233): `HttpChunked.NotAscii`, `HttpChunked.DigitsExactly`.
- A bodyless response (1xx, 204, 304) whose headers announce a body makes the parser wait for one
  (http_parser.c:1835-1866): `HttpFraming.NotModified`, `HttpFraming.FrameExactly`.
- Before HTTP/1.1 the keep-alive option wins over close, and versions such as 2.0 count as old
  (http_parser.c:2111-2127): `HttpFraming.BothOptions`, `HttpFraming.PersistsExactly`.
- A connection option that is the beginning of a known one, with the comma right behind it, hides the next
  option; a tab before an option, or an underscore at its beginning, hides all that follow, because the
  character is changed to lower case before it is compared (http_parser.c:1610-1690):
  `HttpOptions.CloseMissed`, `HttpOptions.SecondSeen`, `HttpOptions.AllSeen`.
- A list of transfer codings that ends in chunked is not taken for chunked (http_parser.c:1600-1608):
  `HttpOptions.CodingExactly`. Spaces inside a Content-Length are skipped (http_parser.c:1576):
  `HttpLines.SpacedLength`, `HttpLines.LengthExactly`.
- A header value that goes on in the next line loses its meaning (http_parser.c:1712-1746):
  `HttpFolds.FoldForgets`.
- Each line end before a status line announces a message (http_parser.c:749-771): `HttpFraming.BegunThrice`.
- The size mkfs writes leaves n - 2 rows unused on n combined members (shfs-tools/shfs_mkfs.c:396-400):
  `Stripe.MkfsWastes`, `Stripe.MkfsLargest`, `Stripe.MkfsExact`.
- The remount feeds every slot of every table chunk, also those behind the last entry, which the feed
  asserts not to happen (shfs.c:745-784, shfs_btable.h:181): `Remount.ReloadOverruns`,
  `Remount.ReloadInside`.
- The member size check at mount, taken alone, does not protect volumes of several independent members
  (shfs.c:312-324): `Stripe.MountCheckMisses`, `Stripe.MountCheckSound`; for volumes mkfs has formatted it
  does not need to (`Stripe.MkfsAddressable`).
- A sector size that does not divide the stripe size makes the runtime read other bytes than the tools
  write (shfs.c:302-310): `StripeIo.OddSectors`, `Stripe.SectorsAgree`.
- `htable_add` does not look for an existing entry (htable.h:250-290): `HashTable.StoredTwice`;
  `HashTable.AddKeeps` says exactly when uniqueness is kept.

## Model

| member | source | states |
|---|---|---|
| `DList.DList.Append` | dlist.h:120-130 | the pointer updates append to the sequence the list stands for |
| `DList.DList.Prepend` | dlist.h:138-148 | the pointer updates prepend to the sequence |
| `DList.DList.Unlink` | dlist.h:89-108 | both BUG_ON checks hold for a member of the list; the element is gone, all other links as the remaining sequence demands |
| `DList.DList.RelinkHead` | dlist.h:150-154 | the element moves to the front |
| `DList.DList.RelinkTail` | dlist.h:132-136 | the element moves to the end |
| `DList.DList.Foreach` | dlist.h:110-113 | visits exactly the elements, in order, and ends |
| `DList.DList.Follow` | dlist.h:110-113 | the link of the k-th element leads to the next one |
| `CacheModel.FindIn` | shfs_cache.c:259-276 | the entry found is on the list and has the address; none found means none is there |
| `CacheModel.FirstIdle` | shfs_cache.c:401-409 | the victim is an available entry without I/O; none means every available entry is loading |
| `CacheProofs.AddKeeps` | shfs_cache.c:390-440 | adding a chunk, with or without a free buffer and whether or not the device takes the request, keeps the invariant |
| `CacheProofs.ReadaheadKeeps` | shfs_cache.c:443-472 | the read-ahead, over any distance, keeps the invariant and leaves every entry in use alone, also the one of the same request |
| `CacheProofs.AreadKeeps` | shfs_cache.c:475-581 | an asynchronous read keeps the invariant in every case |
| `CacheProofs.DerefKeeps` | shfs_cache.c:641-741 | giving a reference back keeps the invariant |
| `CacheProofs.CompleteKeeps` | shfs_cache.c:338-388 | a completion with any result keeps the invariant |
| `CacheProofs.FlushFirstKeeps` | shfs_cache.c:297-322 | a round of the flush keeps the invariant |
| `CacheRuns.MayRelease` | shfs_cache.c:641-741 | whoever may release holds a reference, and its token is on the chain exactly while the read is in flight: the BUG_ON checks of both release functions hold |
| `CacheRuns.StepKeeps` | shfs_cache.c:196-741 | every step of a client, the device or the flush keeps the invariant |
| `CacheRuns.InitInv` | shfs_cache.c:112-191 | the freshly allocated cache satisfies the invariant, with every buffer in the pool |
| `CacheRuns.RunKeeps` | shfs_cache.c:196-741 | so does every state of every run |
| `CacheRuns.BufferClass` | shfs_cache.c:196-294 | each buffer is free, available, referenced or blank, on the lists of that class only, and no chunk has two entries |
| `CacheRuns.Counters` | shfs_cache.c:196-294 | nb_entries and nb_ref_entries are the sizes of the classes |
| `CacheRuns.CacheIsDisk` | shfs_cache.c:338-440 | an entry on a collision list without a token and not invalid holds the chunk on the disk |
| `CacheRuns.HitIsDisk` | shfs_cache.c:523-532 | a chunk handed out as ready is the requested one and equals the disk unless flagged invalid |
| `CacheRuns.StepProtects` | shfs_cache.c:297-581 | no step, the flush included, evicts, re-addresses or pools a buffer that a client references, nor changes a loaded one; a buffer the device fills stays in the cache for the same chunk and token until that read's own completion or the flush that waits for it |
| `CacheRuns.FailsExactly` | shfs_cache.c:475-581 | a request fails exactly for a chunk outside the volume, for want of a buffer or device token when the chunk is not cached, and for want of a token when it has to be waited for |
| `CacheRuns.HitUnheld` | shfs_cache.c:523-532 | a chunk handed out as ready that nobody held is not a failed read |
| `CacheRuns.WaitersAreChain` | shfs_cache.c:338-388 | while a read is in flight the chain is the waiting tokens, each once, one per reference; the BUG_ON checks of the callback hold |
| `CacheRuns.CompletionNotifies` | shfs_cache.c:338-388 | a completion notifies every chained waiter once, in order, with the device's result, and nobody else |
| `CacheRuns.WaitersConserved` | shfs_cache.c:338-741 | over a whole run every registered token was notified, was aborted or waits, counted once |
| `CacheRuns.StepWaits` | shfs_cache.c:475-741 | a token stops waiting only by its abort or its completion |
| `CacheRetention.VictimIsFirst` | shfs_cache.c:401-409 | the victim is the first available entry whose I/O has completed |
| `CacheRetention.HitExactly` | shfs_cache.c:523-581 | a request finds a chunk ready exactly when it is cached and loaded, and hands out its buffer |
| `CacheRetention.ReleaseKeeps` | shfs_cache.c:641-680 | a released chunk is found under its address with its contents and answers the next request at once; on the last release it goes behind all other available ones, and a failed or blank buffer back to the pool |
| `CacheRetention.AbortKeeps` | shfs_cache.c:685-741 | likewise for the release with abort; an entry is kept while its read goes on |
| `CacheRetention.StepStays` | shfs_cache.c:196-741 | a chunk that is loaded, or being loaded, stays in the cache through every step but an eviction when it is its turn, a failed read and the flush |
| `CacheRetention.RunStays` | shfs_cache.c:196-741 | so in every run without such a step: it is still there, with its contents |
| `CacheRetention.AreadRests` | shfs_cache.c:390-581 | a request for another chunk leaves an available buffer alone when more buffers than the read-ahead takes are used before it |
| `CacheRetention.FirstGoes` | shfs_cache.c:390-440 | the first in the queue is taken for a chunk that is not cached when no buffer is free |
| `CacheRetention.LeavesIndeed` | shfs_cache.c:297-388 | blank buffers, failed reads and the flush do take the chunk out of the cache |
| `CacheRetention.EblankExactly` | shfs_cache.c:583-636 | a blank buffer is to be had exactly when one can be used for a new chunk, and is the caller's alone |
| `CacheRetention.ChainInOrder` | shfs_cache.c:537-741 | the waiters of a read stand in the order in which they came: a caller joins at the end, an abort takes its own token out, nothing else changes the chain |
| `CacheRetention.FoundInFront` | shfs_cache.c:259-276 | a chunk that was found stands in front of its collision list, the others behind it in their order |
| `CacheRetention.Spread` | shfs_cache.c:259-276 | as many chunks in a row as there are collision lists go to different ones |
| `CacheReadahead.ReadaheadLoads` | shfs_cache.c:443-472 | after a request the chunk at distance j, inside the volume and not cached, is being read, given buffers and device tokens for it and those before it |
| `CacheReadahead.ReadaheadNoMore` | shfs_cache.c:443-472 | every read a request starts is for its chunk or one of those behind it, inside the volume |
| `CacheReadahead.NewestLast` | shfs_cache.c:390-472 | every buffer that rests is used for a new chunk before those of the chunks a request has started |
| `ChunkCache.ChunkCache.Find` | shfs_cache.c:259-276 | following the links of one collision list, and moving the hit to its head, is the model's lookup |
| `ChunkCache.ChunkCache.Add` | shfs_cache.c:390-440 | the addition or eviction on the linked lists is the model's; every element unlinked is on the list it is unlinked from |
| `ChunkCache.ChunkCache.Unlink` | shfs_cache.c:280-294 | an available entry is on both lists it is unlinked from |
| `ChunkCache.ListsOf` | shfs_cache.c:259-294 | which lists an entry is on, by its chunk, its references and the pool |
| `ChunkCache.ChunkCache.Readahead` | shfs_cache.c:443-472 | the loop, for any distance, is the model's read-ahead |
| `ChunkCache.ChunkCache.Aread` | shfs_cache.c:475-581 | the operation on fields, lists and token chain is the model's step, result included; a failure is EAGAIN exactly when the chunk is in the volume and the device did not refuse it for another reason |
| `ChunkCache.ChunkCache.Eblank` | shfs_cache.c:583-636 | likewise for blank buffers; the evicted entry is on both lists |
| `ChunkCache.ChunkCache.Release` | shfs_cache.c:641-680 | likewise for the release; a destroyed entry is on its collision list, one made available is not on that list yet |
| `ChunkCache.ChunkCache.ReleaseAbort` | shfs_cache.c:685-741 | likewise for the release with abort; the token is unlinked from the chain it is on |
| `ChunkCache.ChunkCache.AioCallback` | shfs_cache.c:338-388 | likewise for the completion callback, which clears the chain and then follows its links |
| `ChunkCache.ChunkCache.Flush` | shfs_cache.c:297-322 | empties the available list by a run of flush and completion steps; no reference is lost |
| `Fio.ContentStored` | shfs_fio.h:96-109 | the chunk and offset the code computes for a byte lead to the slice of the file's chunks laid one behind the other, for any number of them |
| `FioRuns.MoveReady` | http_fio.h:71-175 | an enabled move finds its buffer in the ring |
| `FioRuns.MoveKeeps` | http_fio.h:51-175 | every move of the pipeline and of everyone else keeps the pipeline's invariant |
| `FioRuns.StartInv` | http_fio.h:177-193 | the initialised request satisfies it |
| `FioRuns.RunKeepsM` | http_fio.h:51-351 | so does every state of every interleaving |
| `FioRuns.BodyExact` | http_fio.h:71-175 | in every run the bytes handed to TCP are a prefix of the requested bytes of the file, and all of them once sent reaches the length |
| `FioRuns.WindowSafe` | http_fio.h:48-175 | a byte sent and not yet acknowledged lies unchanged in the buffer in slot (chunk - first chunk) mod the ring size, which the request still references |
| `FioRuns.AckInOrder` | http_fio.h:341-346 | the address check of the acknowledgement loop never fails |
| `FioRuns.StallIsWindowFull` | http_fio.h:124-128 | a slot that holds another chunk means the whole ring is waiting for acknowledgements or releases |
| `FileRequest.AskFacts` | http_fio.h:51-56 | no token is pending when a chunk is asked for: the BUG_ON holds |
| `FileRequest.FileRequest.constructor` | http_fio.h:177-193 | the ring starts empty, with the slots for a send buffer of any size |
| `FileRequest.RingSize` | http_fio.h:43-193 | the slots hold at least a full send buffer, and there are no more of them than for the smallest chunk size: the BUG_ON holds |
| `FileRequest.FileRequest.AioReq` | http_fio.h:51-69 | asking for the current chunk is an Ask move |
| `FileRequest.FileRequest.Callback` | http_fio.c:39-54 | the token of a callback for this request is the one it waits for (the BUG_ON holds); the call is a Callback move, and the chunk, read without an error, may be sent |
| `FileRequest.FileRequest.Completed` | shfs_cache.c:338-388 | a completion of any device read is a move of the others; the request is called back exactly when it is its own read |
| `FileRequest.FileRequest.Prepare` | http_fio.h:93-142 | what the checks before a write decide, each outcome with its reason |
| `FileRequest.FileRequest.SendChunk` | http_fio.h:144-170 | one write is a Send move of exactly the bytes TCP took |
| `FileRequest.FileRequest.WriteFio` | http_fio.h:71-175 | the loop is a run of Ask and Send moves, ends, and stops short only for a named reason; a retry means that the chunk is in the volume and a buffer, a device token or a token to wait with was missing, an abort that it is not, that the device refuses it or that its read failed; with the chunk there a byte goes out unless TCP refuses |
| `FileRequest.FileRequest.Acknowledge` | http_fio.h:321-351 | the loop releases, in order, exactly the buffers of the fully acknowledged chunks, also when the footer or other responses are on the connection |
| `FileRequest.FileRequest.Close` | http_fio.h:307-319 | every reference of the request goes back, each by the release that fits it, and no other |
| `Serving.BodyWithinSent` | http.c:1281-1340 | crediting in order never credits a body byte that was not sent |
| `Serving.AckFile` | http.c:1281-1340 | the acknowledgement of a file response, sent completely or in part, finds its body bytes sent, credits them and releases exactly the buffers of the acknowledged chunks |
| `Serving.CloseExact` | http_fio.h:307-319 | closing a request gives back a buffer with unacknowledged bytes exactly when there are any |
| `Serving.AckThenDone` | http.c:1325-1368 | without keep-alive the first acknowledgement of a sent file reports it done; closing it gives back a buffer that TCP still needs exactly when the acknowledgement does not reach the end of the body |
| `Serving.FileReply.Respond` | http.c:1136-1279 | over all calls TCP gets header, requested bytes of the file and footer, each byte once and in order; the call returns early only at a full send buffer, with the error TCP answered last or for a reason of the pipeline; the request keeps its buffers until it is closed |
| `Serving.FileReply.MsgPhase` | http.c:1214-1236 | the message phase of a file ends exactly when its last byte is sent |
| `Serving.FileReply.Completed` | http_fio.c:39-54 | after the awaited read the response goes on, in the message phase (the BUG_ON holds), and sends at least a byte of a chunk that was read unless TCP refuses |
| `Serving.FileReply.Acked` | http.c:1281-1340 | an acknowledgement in any phase and after the end keeps the response and its account in agreement |
| `Serving.CloseServed` | http.c:1355-1368 | a completely sent response is acknowledged and closed: every reference goes back, one that TCP still needs exactly when the acknowledgement does not reach the end of the body |
| `Serving.Lifecycle` | http.c:1136-1385 | from the request over its response and acknowledgement to its close, header, bytes of the file and footer go out and the cache stays in order |
| `Serving.RangeBody` | http_fio.h:206-273 | the body of an answered request on a file that is not empty is exactly the bytes asked for, in order |
| `Serving.ServeRange` | http_fio.h:206-290 | a file request with a range: TCP gets the header, exactly the bytes asked for and the footer |
| `Sharing.JointKeeps` | http_fio.h:51-351 | every move of any of several requests, of the device or of other clients keeps all requests sound: none takes a buffer or a token of another |
| `Sharing.ManyServed` | http_fio.h:51-351 | in every run with any number of requests on one cache, what went out of each is a prefix of its part of its file and its unacknowledged bytes lie unchanged in buffers it holds |
| `Sharing.OwnRun` | http_fio.h:71-351 | the runs that the methods of one request perform keep all others |
| `Pipelined.Join` | http.c:1101-1133 | a second request begins beside one that still holds its buffers |
| `Pipelined.WriteSecond` | http.c:1214-1236 | sending the second leaves the buffers of the first alone |
| `Pipelined.Acknowledge` | http.c:1342-1385 | bytes are credited to the first request up to its end and then to the second, none is left over, and both keep exactly the buffers they need |
| `Range.AnswersAsked` | http_fio.h:206-273 | on a file that is not empty an answered request gets exactly the bytes it asked for (section 14.35.1 of RFC 2616), and the length is their number |
| `Range.CodeExactly` | http_fio.h:213-262 | 200 exactly without a range, 416 without a body, 206 otherwise |
| `Range.RefusedExactly` | http_fio.h:206-245 | which ranges are refused |
| `Range.OneByteRefused` | http_fio.h:230-240 | a satisfiable one-byte range that is refused |
| `Range.InsideIffNotEmpty` | http_fio.h:207-240 | accepted ranges lie inside the file exactly when it is not empty |
| `Session.Conn.WriteSome` | http.c:585-599 | the sizes tried are the halves one after the other, as long as TCP lacks memory and its queue is not full; the loop ends with what TCP took or with its error and nothing |
| `Session.Conn.Write` | http.c:569-619 | hands out exactly a prefix, counts it as in flight, and stops only at a full send buffer or with the error TCP answered last |
| `Session.Conn.TotalLen` | http_hdr.h:149-163 | the totals are the lengths of the concatenated lines |
| `Session.Conn.WriteLines` | http_hdr.h:181-199 | resumes in the middle of any line and emits the next bytes of the lines once and in order |
| `Session.Conn.WriteHdr` | http_hdr.h:166-233 | static lines, dynamic lines and separator in order, each byte once, from any resume point |
| `Session.Conn.WriteBuf` | http.c:1031-1044 | the next bytes of a buffer |
| `Session.Responder.Enqueue` | http.c:1101-1116 | a request joins the queue; what went out is unchanged |
| `Session.Responder.Eor` | http.c:1101-1133 | the head of the queue is served completely |
| `Session.Responder.Respond` | http.c:1136-1279 | over all calls and partial writes TCP gets the replies one after the other, header, body, footer, each byte once; it stops early only at a full send buffer or with the error TCP answered last |
| `Ack.AckReq` | http.c:1281-1340 | credits header, then body, then footer; credited bytes and remainder add up; no counter passes its total; with keep-alive done means fully credited |
| `Ack.AtUnique` | http.c:1281-1340 | the order leaves only one way to credit a number of bytes |
| `Ack.Credit` | http.c:1342-1385 | crediting n bytes lowers what the requests expect by n |
| `Ack.Session.Acknowledge` | http.c:1342-1385 | the queue loop ends, neither BUG_ON fires while the bytes are expected, and bytes are credited in sending order |
| `Ack.Session.Sent` | http.c:621-632 | the books stay balanced with the bytes in flight |
| `Ack.FinishExact` | http.c:1065-1090 | finishing a request keeps the books balanced exactly when header and body alone are not all that is acknowledged |
| `Ack.SessionBalanced` | http.c:1065-1385 | in every session whose finishes meet that condition each byte in flight is expected by exactly one request |
| `Ack.FooterLost` | http.c:1065-1090 | for every length of header and body a run after which bytes are in flight and no request expects them |
| `Ack.DoneAfterOneByte` | http.c:1325-1339 | a response of 1200 bytes that is reported done after the acknowledgement of one |
| `Ack.AckWithoutKeepalive` | http.c:1325-1339 | without keep-alive a request is reported done in any case; it is credited in full exactly when the acknowledgement reaches the end of the body |
| `HttpMachine.PassRank` | http_parser.c:699-2051 | re-entering the switch for one byte always ends |
| `HttpInvariant.PassKeeps` | http_parser.c:693-2052 | every pass keeps the conditions of the asserts |
| `HttpInvariant.RunKeeps` | http_parser.c:693-2052 | after any input that is not refused they hold: a body is read only with bytes left, chunk states only in chunked messages, header states fit, a length never wraps or reaches ULLONG_MAX |
| `HttpParser.PassShape` | http_parser.c:104-141 | data states run their callback exactly when left, other states set a mark exactly when one is entered |
| `HttpParser.PassBalanced` | http_parser.c:80-141 | marks, callbacks and notifications of a pass add up to its events; at most one mark is set |
| `HttpParser.ValueSkip` | http_parser.c:1542-1568 | skipping to the next line end with memchr is what byte by byte reading does |
| `HttpParser.BodyBlock` | http_parser.c:1875-1916 | reading a block of a body is reading its bytes |
| `HttpParser.IntoChunkSize` | http_parser.c:1927-1930 | the count of header bytes is restarted before a chunk size |
| `HttpCount.IntoBody` | http_parser.c:1829-2045 | a body is entered only from a state that starts a new header count |
| `HttpCount.SkipHits` | http_parser.c:1542-1568 | a value without a line end within the limit is refused, although the search stops there |
| `HttpExecute.Parser.ScanField` | http_parser.c:1316-1440 | the inner loop agrees with the byte machine, and every byte it reads is counted |
| `HttpExecute.Parser.ScanValue` | http_parser.c:1518-1702 | the inner loop agrees with the byte machine and the count up to the end of the value, or the header limit is hit |
| `HttpExecute.Parser.NextLineEnd` | http_parser.c:1545-1566 | the two bounded searches find the first line end, or none is near |
| `HttpExecute.Parser.ReadBody` | http_parser.c:1875-2029 | the block reads agree with the byte machine, and nothing is counted |
| `HttpExecute.Parser.Execute` | http_parser.c:626-2077 | a piece of input is parsed exactly as by the byte machine: state, events, error and its place; before an error the callbacks have received the events of the bytes before it, up to those still marked; nread is the count of header bytes, plus one when the piece ends inside a name or value; a piece the byte machine takes is refused exactly when that count reaches the limit |
| `HttpCuts.AfterGap` | http_parser.c:696-697 | nread exceeds the count of header bytes by at most one for each piece, and by at most a factor of two |
| `HttpCuts.BoundedFits` | http_parser.c:154-161 | while twice the header bytes, or the header bytes and the pieces together, stay under the limit, no piece is refused, whatever the cuts and however long the bodies |
| `HttpCuts.Feed` | http_parser.c:626-2077 | the parser fed piece by piece gives what the byte machine makes of the joined input; an input the byte machine takes is refused exactly when the count of some piece reaches the limit |
| `HttpLimit.SplitWorse` | http_parser.c:696-1697 | cutting a piece in two never avoids a refusal |
| `HttpLimit.SinglesWorst` | http_parser.c:696-1697 | what is refused in some cutting is refused byte by byte |
| `HttpLimit.WholeBest` | http_parser.c:696-1697 | what is refused whole is refused in every cutting |
| `HttpLimit.CutsAgree` | http_parser.c:696-1697 | all cuttings of an input are refused or none is, exactly when the whole input and its single bytes agree |
| `HttpLimit.FeedBoth` | http_parser.c:626-2077 | two parsers fed the same input in different cuts end with the same status, state and callbacks unless one is refused for the header limit; neither is when the input is not refused byte by byte or leaves room, both are when it is refused whole |
| `HttpLimit.ScanCuts` | http_parser.c:1316-1702 | the rest of a header name or value is refused whole exactly when its bytes reach the limit, byte by byte exactly when twice its bytes exceed it |
| `HttpFed.CutMatters` | http_parser.c:696-1428 | a header name of 50000 bytes that is taken in one piece and refused byte by byte |
| `HttpFed.ValueCutMatters` | http_parser.c:1518-1702 | likewise for a header value |
| `HttpChunked.SizeRun` | http_parser.c:1927-1976 | the accumulated size is the hexadecimal value |
| `HttpChunked.SizeRefused` | http_parser.c:1965-1972 | larger sizes are refused: the overflow check is exact |
| `HttpChunked.ChunkRun` | http_parser.c:1927-2045 | one chunk is one chunk header, its data and one chunk end |
| `HttpChunked.LastRun` | http_parser.c:1991-2006 | the last chunk and an empty trailer complete the message |
| `HttpFed.RoundTrip` | http_parser.c:1829-2045 | a parser that waits for a chunk size, fed the encoding of any non-empty pieces by section 4.1 of RFC 7230 in any cutting, takes all of it: exactly the data and one completed message |
| `HttpFed.EncodeBounded` | http_parser.c:1927-2045 | a chunked body of any size stays under the header limit in any cutting |
| `HttpChunked.IdentityRun` | http_parser.c:1875-1925 | a body of known length is delivered exactly, then the message is complete |
| `HttpMessages.AllReached` | http_parser.c:945-1069 | the guesses by the first letter and their corrections reach every method of the table |
| `HttpMessages.RequestLineTaken` | http_parser.c:945-1264 | of any request line with a method of the table, a URL of the grammar and version numbers up to 999, ended by CR LF or LF, the parser learns exactly the method, the URL and the version |
| `HttpUrls.UrlExactly` | http_parser.c:478-624 | the URL states take exactly "/" or "*" and visible characters, or a scheme with a server and such a rest; for CONNECT a server and such a rest |
| `HttpUrls.OriginForm` | http_parser.c:492-615 | behind "/" exactly the visible characters are taken, in path, query and fragment |
| `HttpUrls.TailExactly` | http_parser.c:557-615 | likewise from the path on, in every part |
| `HttpUrls.ServerExactly` | http_parser.c:532-556 | which servers, with which rest, are taken |
| `HttpUrls.SchemeExactly` | http_parser.c:507-531 | which schemes are taken |
| `HttpGrammar.MethodExactly` | http_parser.c:945-1069 | a method is taken exactly when it is one of the table |
| `HttpGrammar.UrlOnLine` | http_parser.c:1071-1143 | on the line a URL is taken exactly when it is one of the grammar |
| `HttpGrammar.SpacesBefore` | http_parser.c:1071-1077 | more spaces before a URL are skipped |
| `HttpGrammar.VersionExactly` | http_parser.c:1144-1264 | the rest of the line is taken exactly when it is a version behind any number of spaces |
| `HttpGrammar.RequestLineExactly` | http_parser.c:945-1264 | a request line of three words is taken exactly when they are a method, a URL for it and a version |
| `HttpSwitch.SimpleRequest` | http_parser.c:1112-1143 | a request line without a version is one of HTTP/0.9 |
| `HttpSwitch.ConnectStops` | http_parser.c:1840-1848 | a CONNECT request is complete behind its headers, and the parser stops there |
| `HttpSwitch.UpgradeStops` | http_parser.c:1790-1848 | so is a request with the two headers that ask for an upgrade, at any place among others |
| `HttpStatus.StatusLineExactly` | http_parser.c:749-943 | a status line is taken exactly when it is a version, a code behind any number of spaces and any reason |
| `HttpLines.TokensExactly` | http_parser.c:189-221 | the table holds exactly the token characters of section 3.2.6 of RFC 7230, capital letters as small ones |
| `HttpLines.HeaderLineExactly` | http_parser.c:1266-1710 | a header line is taken exactly when its name is a token and, for Content-Length, its value a length |
| `HttpLines.NoColon` | http_parser.c:1395-1428 | a line without a colon is refused |
| `HttpLines.LengthExactly` | http_parser.c:1484-1597 | a Content-Length is taken exactly when it begins with a digit, holds digits and spaces only and is not above the limit, as the number its digits form |
| `HttpLines.SpacedLength` | http_parser.c:1572-1597 | "4 2" is taken as 42 |
| `HttpOptions.OptionsRead` | http_parser.c:1492-1690 | what the parser makes of any list of connection options |
| `HttpOptions.AllSeen` | http_parser.c:1610-1690 | when it sees all of them |
| `HttpOptions.SecondSeen` | http_parser.c:1610-1690 | the exact condition for the second of two |
| `HttpOptions.CloseMissed` | http_parser.c:1610-1690 | "c, close" does not close the connection |
| `HttpOptions.CodingExactly` | http_parser.c:1599-1674 | a body is taken for chunked exactly when the value is "chunked" with any spaces behind it |
| `HttpFolds.FoldedTaken` | http_parser.c:1712-1746 | a value over any number of lines is delivered whole and leaves the framing alone |
| `HttpFolds.SkippedFold` | http_parser.c:1748-1778 | white space before a value may go over line ends |
| `HttpFolds.FoldForgets` | http_parser.c:1712-1746 | a folded "close" does not close, a folded length is refused |
| `HttpHeaders.NameRecognised` | http_parser.c:1266-1427 | a header name is recognised, whatever its case, exactly when it is one of the five words |
| `HttpHeaders.HeaderTaken` | http_parser.c:1266-1778 | a header line with any white space before its value, which may be empty, ended by CR LF or LF, is delivered as its name and its value, byte for byte |
| `HttpRequests.LengthRun` | http_parser.c:1572-1597 | a Content-Length is taken as its decimal value, or refused exactly above the limit |
| `HttpRequests.WordRecognised` | http_parser.c:1599-1658 | "chunked", "close", "keep-alive" and "upgrade" are recognised, whatever their case |
| `HttpRequests.PlainHeaders` | http_parser.c:1266-1745 | headers with other names leave the framing alone |
| `HttpFraming.FrameExactly` | http_parser.c:1829-1873 | the body is framed as section 3.3.3 of RFC 7230 says exactly when the message is not a bodyless response with headers that announce a body |
| `HttpFraming.NotModified` | http_parser.c:1829-1873 | a 304 with a Content-Length makes the parser wait for a body |
| `HttpFraming.UpgradeExactly` | http_parser.c:1835-1848 | a message that asks for an upgrade ends with its headers exactly when it is a CONNECT or has no body |
| `HttpFraming.BodyThenStops` | http_parser.c:1875-1925 | otherwise its body is delivered and the parser stops at its last byte |
| `HttpFraming.HeadersEnd` | http_parser.c:1780-1827 | the callback is told, then the body is framed by what the headers and the callback said |
| `HttpFraming.PersistsExactly` | http_parser.c:2085-2128 | another message may follow as section 6.3 of RFC 7230 says, exactly under the stated condition |
| `HttpFraming.BothOptions` | http_parser.c:2111-2128 | an HTTP/1.0 request with both options is taken to keep the connection |
| `HttpFraming.StrictEnds` | http_parser.c:1780-2045 | behind the CR of a line end, and behind the data of a chunk, no other byte is taken |
| `HttpFraming.DeadExactly` | http_parser.c:702-710 | behind a message that closes the connection only line ends are taken |
| `HttpFraming.BlankBefore` | http_parser.c:945-950 | line ends before a request are skipped |
| `HttpFraming.BegunThrice` | http_parser.c:749-771 | an empty line and a status line are three beginnings of a message |
| `HttpFraming.EndlessBody` | http_parser.c:1912-1916 | a body that lasts until the connection ends is delivered byte for byte |
| `HttpFraming.EitherKind` | http_parser.c:712-748 | a parser for both kinds tells them apart by two bytes and then behaves as one for that kind |
| `HttpFraming.SizeBytes` | http_parser.c:1927-1976 | a chunk size begins with a digit; behind it come digits, the line end, a semicolon or a space, and nothing else |
| `HttpTrailers.SizeTaken` | http_parser.c:1927-1976 | a chunk size in any digits, with any zeros before it, is taken as its value, or refused exactly above the limit |
| `HttpTrailers.BodyTaken` | http_parser.c:1927-2045 | any chunked body, with extensions and a trailer, is taken: the trailer is delivered and one message completes |
| `HttpTrailers.ToldIsData` | http_parser.c:1927-2045 | what the body callback receives of it is exactly its data |
| `HttpFed.PlainRequest` | http_parser.c:945-1873 | the parser object, fed a request without a body in any cutting, takes it; the callbacks receive exactly its URL and headers, and the message completes |
| `HttpFed.SizedRequest` | http_parser.c:945-1925 | likewise for a request with a Content-Length among its headers and a body of any length |
| `HttpFed.ChunkedRequest` | http_parser.c:945-2045 | likewise for a request with chunked coding among its headers and data of any length |
| `HttpFed.ConnectionRequest` | http_parser.c:2111-2128 | after a request that says close the parser takes no further one, after keep-alive it does |
| `HttpResponses.StatusLineTaken` | http_parser.c:749-943 | of any status line, with or without a reason, ended by CR LF or LF, the parser learns exactly the version, the code and the reason |
| `HttpChunked.DigitsExactly` | http_parser.c:224-233 | which bytes count as hexadecimal digits |
| `HttpChunked.NotAscii` | http_parser.c:1927-1942 | a byte that is no digit and starts an accepted chunk size |
| `Remount.MountedInv` | shfs.c:501-526 | a mounted volume satisfies the lock protocol: nothing open, every lock free |
| `Remount.StepKeeps` | shfs_fio.c:51-78 | every step of a client or the remounter keeps the lock protocol |
| `Remount.RunKeeps` | shfs.c:764-829 | so does every interleaving |
| `Remount.MetaStable` | shfs.c:764-829 | a file's metadata does not change between a successful open and the matching close |
| `Remount.EntryUpdated` | shfs.c:764-829 | in every run in which the remounter goes through an entry, whatever the clients do meanwhile, the entry holds the new metadata at the end, all others are as before, no file is left that was opened with other metadata, and the next open sees the new one |
| `Remount.TableUpdated` | shfs.c:734-829 | in every run in which it goes through the table, the table is the new one at the end |
| `Remount.InsideAlone` | shfs.c:767-786 | while the remounter holds the lock no file on the entry is open |
| `Remount.NobodyBlocked` | shfs_fio.c:51-78 | the remounter gets the lock exactly when the last file is closed; an open succeeds exactly when the remounter is elsewhere |
| `Remount.NbOpenAlways` | shfs_fio.c:51-202 | in every run of a mounted volume shfs_nb_open is the sum of the reference counts |
| `Remount.ReloadInside` | shfs.c:734-763 | the indices fed by the remount lie in the table exactly when the entries fill their last chunk |
| `Remount.ReloadOverruns` | shfs.c:734-763 | a table of 100 entries, 16 to a chunk, for which index 111 is fed |
| `Remount.Files.OpenBentry` | shfs_fio.c:51-78 | the operation is the protocol's step; busy exactly while the entry is being updated |
| `Remount.Files.OpenF` | shfs_fio.c:175-189 | the operation is the protocol's step |
| `Remount.Files.CloseF` | shfs_fio.c:194-202 | the operation is the protocol's step; the last close frees the lock |
| `Stripe.LabelSafe` | shfs.c:922-975 | no chunk from 1 on touches row 0 of a member |
| `Stripe.OwnerOfLocate` | shfs.c:922-975 | chunk and byte are determined by member and device byte, in both modes |
| `Stripe.LocateOfOwner` | shfs-tools/tools_common.c:136-147 | every device byte outside row 0 belongs to a chunk |
| `Stripe.ChunksInOrder` | shfs.c:922-975 | in both modes the chunks lie one behind the other along the stripes, dealt to the members in turn behind the row of labels |
| `Stripe.SectorsAgree` | shfs.c:302-310 | runtime sectors and tool bytes agree exactly when the sector size divides the stripe size |
| `Stripe.MkfsAddressable` | shfs-tools/shfs_mkfs.c:385-400 | every chunk of a formatted volume lies inside the smallest member, and the mount check accepts it |
| `Stripe.MkfsExact` | shfs-tools/shfs_mkfs.c:385-400 | exactly the chunks up to that size fit, and for n combined members n - 2 more |
| `Stripe.MkfsLargest` | shfs-tools/shfs_mkfs.c:385-400 | the size is the largest that fits exactly for independent members or two combined ones |
| `Stripe.MkfsWastes` | shfs-tools/shfs_mkfs.c:396-397 | three combined members for which 255 chunks fit and 254 are used |
| `Stripe.FitsExactly` | shfs.c:922-958 | a chunk fits exactly when all of its bytes lie inside its members |
| `Stripe.MountCheckSound` | shfs.c:312-324 | the mount check alone guarantees this exactly for combined striping or one member |
| `Stripe.MountCheckMisses` | shfs.c:312-324 | two independent members that the mount accepts although chunk 1 lies behind their end |
| `StripeIo.Members.SyncWrite` | shfs-tools/tools_common.c:127-176 | each stripe's bytes, at the offset the tools compute, become its part of the buffer; no other byte of a member changes |
| `StripeIo.Members.AioRead` | shfs.c:889-981 | there is a token exactly when no request is refused; completions in any order call its callback once, after the last, with an error exactly when one is broken, and the slot of every other holds the sectors its request addresses |
| `StripeIo.SectorsAreBytes` | shfs.c:302-310 | the sectors the runtime reads for a stripe are its bytes when the sector size divides the stripe size |
| `StripeIo.OddSectors` | shfs.c:302-310 | a sector size for which they are not |
| `StripeIo.Members.WriteThenRead` | shfs.c:944-975 | what the tools wrote by bytes is what the runtime reads by sectors, in every slot whose read does not break |
| `StripeIo.ByteOfStripe` | shfs.c:922-958 | a byte of a chunk is found in its stripe where the layout locates it |
| `StripeIo.OthersApart` | shfs.c:922-958 | writing chunks hits exactly their own bytes, no other chunk's |
| `StripeIo.FitsInside` | shfs.c:922-958 | a chunk that fits into the smallest member lies inside all of them |
| `Alloc.AllocList.Register` | shfs-tools/shfs_alloc.c:80-127 | the extent goes behind all that do not start later |
| `Alloc.AllocList.Unregister` | shfs-tools/shfs_alloc.c:129-153 | removes exactly the given extent, reports whether it was there |
| `Alloc.AllocList.FindFree` | shfs-tools/shfs_alloc.c:155-185 | returns the lowest gap between extents that is long enough, 0 only if there is none; that is the lowest place where so many chunks are free exactly when no empty extent lies inside it |
| `Alloc.FirstFitExact` | shfs-tools/shfs_alloc.c:155-185 | first-fit finds the lowest free chunks, and misses none, exactly then |
| `Alloc.AlwaysRight` | shfs-tools/shfs_alloc.c:155-185 | it does so for every length exactly when every empty extent with free chunks on both sides splits a run no longer than some place before it |
| `Alloc.NonEmptyRight` | shfs-tools/shfs_alloc.c:155-185 | so it does when no extent behind the first is empty |
| `Alloc.SeesAllFree` | shfs-tools/shfs_alloc.c:155-185 | every free place is a gap exactly when no empty extent has free chunks on both sides |
| `Alloc.EmptyFileBlocks` | shfs-tools/shfs_admin.c:813-825 | adding and removing files leads to five free chunks in a row where no place for four is found |
| `Alloc.InsertSorted` | shfs-tools/shfs_alloc.c:80-127 | using a free place keeps the list sorted and disjoint |
| `Alloc.RunKeeps` | shfs-tools/shfs_admin.c:813-825 | over any run of first-fit allocations and releases extents stay sorted, disjoint and inside the volume |
| `Alloc.FormatGood` | shfs-tools/shfs_admin.c:610-627 | the regions of a fresh volume are such a list |
| `Alloc.NoOverlap` | shfs-tools/shfs_alloc.c:155-185 | a chunk of a new allocation belongs to no other extent |
| `HashTable.HTable.Lookup` | htable.h:220-243 | finds a digest exactly if it is stored, when every digest is in its bucket |
| `HashTable.HTable.Add` | htable.h:250-290 | uses the first empty slot of the digest's bucket and links it; fails only for a zero digest or a full bucket |
| `HashTable.HTable.LookupAdd` | htable.h:302-353 | finds the digest or stores it in the first empty slot; a table whose digests are in their buckets and unique stays so |
| `HashTable.StoredTwice` | htable.h:250-290 | a digest added twice is stored twice |
| `HashTable.HTable.Clear` | htable.h:390-398 | every slot is empty and the list too |
| `HashTable.HTable.Rm` | htable.h:361-376 | the slot is empty and off the list |
| `HashTable.HTable.Feed` | shfs_btable.h:172-219 | the slot holds the digest, and the list is again exactly the used slots |
| `HashTable.AddKeeps` | htable.h:250-290 | a new digest stays in its bucket; digests stay unique exactly when it was not stored before |
| `AdminTable.Load` | shfs.c:501-526 | feeding by index reproduces the table on the device |
| `AdminTable.Admin.AddFile` | shfs-tools/shfs_admin.c:893-924 | adds the file and takes none away, or changes nothing; it fails exactly for the zero digest, a stored digest and a full bucket |
| `AdminTable.Admin.RmFile` | shfs-tools/shfs_admin.c:1244-1280 | takes exactly the file away, succeeds exactly if it is there |
| `AdminTable.Admin.Umount` | shfs-tools/shfs_admin.c:672-692 | writing the modified chunks back makes the device equal to the table |
| `AdminTable.MountAndLookup` | shfs.c:501-526 | after the write-back the runtime finds a digest, with its metadata, exactly if the tool has the file |
| `Digests.Compare` | hash.h:73-102 | word-wise comparison is comparison of the first hlen bytes |
| `Digests.ZeroTest` | hash.h:104-135 | word-wise zero test is that of the first hlen bytes |
| `Digests.StoredWord` | hash.h:63-68 | a masked word written to memory is the low bytes and zeros above |
| `Digests.Copy` | hash.h:46-71 | word-wise stores, the last one masked: copies the first hlen bytes, clears the rest of the last word, changes nothing else |
| `Digests.RawBucketIs` | htable.h:140-180 | the bucket depends on the digest only |
| `Digests.Parse` | hash.h:185-235 | succeeds exactly on 2 hlen hexadecimal digits |
| `Digests.ParsesExactly` | hash.h:185-235 | a text is parsed as a digest exactly when, up to the case of its letters, it is the printed digest |
| `Digests.BytesOfUnparse` | shfs_tools.c:606-612 | parsing undoes printing |
| `FileRead.Read` | shfs_fio.c:254-305 | the chunk-wise read succeeds exactly when it lies in the file and every chunk it needs can be read, and returns the slice of the file; out of bounds nothing is written |
| `FileRead.ReadChunk` | shfs_cache.h:215-249 | one reference to the loaded chunk, or an error and no reference; it fails only outside the volume, for a chunk the device refuses or cannot read or whose failed read somebody still holds, or after all tries, and a cached chunk needs one |
| `FileRead.CacheRead` | shfs_fio.c:360-409 | the cached read returns the slice of the file and leaves the references as they were; inside the file it fails only over a chunk it needs, for one of these reasons |

## Left out

- Callbacks that re-enter the cache from the completion callback or from the flush wait, and completions
  inside shfs_aio_chunk: callbacks are later steps, and the temporary reference count of the flush is inside
  one step.
- The cache builds without caching or with immediate drop, and growing the pool.
- mempool.h on its own: the pool is the free list of the cache; its objects' sizes and alignment add nothing.
- lwIP, block device drivers, semaphores and malloc: partial and refused writes, late completions in any
  order, waits and picks that fail.
- `ChunkCache.ChunkCache.Flush`: polls a finite number of times, of any size, before the awaited read ends.
- `FileRead.ReadChunk`: makes a request that finds no buffer or token a finite number of times, given by
  the caller; a wait that never ends is not modelled.
- `StripeIo.Members.SyncWrite`: the stripes lie inside their members, as they do on formatted volumes
  (`Stripe.MkfsAddressable`, `StripeIo.FitsInside`); failing and short writes are not modelled.
- `FileRequest.FileRequest.Close`: asks that a completed token's callback has been made, as it always has
  between two calls in the program (`FileRequest.FileRequest.Completed` keeps it so).
- `HttpExecute.Parser.Execute`: nread does not wrap at 2^32, and a callback does not fail or pause; the call
  with no bytes at the end of the input is not modelled.
- `Session.Responder.Respond`: the queue of responses is for bodies in memory; file responses are
  `Serving.FileReply` and, two at a time, `Pipelined`; more of them together are in `Sharing`, as a state
  machine.
- `Session.Responder.Eor`: the move to the acknowledgement queue is in `Ack.FinishExact`; the keep-alive
  timer and the closing state are not modelled.
- `HttpFed.PlainRequest`: CONNECT and upgrade requests, folded lines, chunk extensions, trailers and lists of
  connection options are theorems about the byte machine (`HttpSwitch`, `HttpFolds`, `HttpTrailers`,
  `HttpOptions`), which cut-independence carries over to the parser object; they are not fed to it as whole
  requests. Several framing headers at once are covered by the machine only.
- `CacheRetention.StepStays`: an eviction by a request is told by how many buffers are used before the chunk's; a
  request may leave the chunk alone although it could have taken it, when the chunks it wants are cached.
- `Ack.Session.Acknowledge`: keep-alive sessions without stream responses; streams credit everything.
- Remote streams (http_link.c), received-header capture, the shell, statistics, name lookup, links and the
  kernel glue.
- The remounting thread as a procedure: its steps are steps of the protocol; the wait for the semaphore and
  the flush of the cache are points where others run.
- Overlapping regions on the allocator's list (link entries) and best-fit, which is a stub in the source.
- 64-bit wrap of offset plus length in file reads, and header lines longer than their buffer.
