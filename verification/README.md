# Verified models of libjingle's `talk/base`

A Dafny 4.11 model of the self-contained protocols and data structures in `talk/base`, with proofs of what they
promise. `dafny verify dfyconfig.toml` checks the whole project.

## What is modelled

* **HTTP message pump** (`httpbase.cc`). `HttpGrammar` gives the meaning of `HttpParser` as an automaton that takes one
  byte at a time. `HttpParsing` is the parser itself, `HttpReceiving` the receive loop over its 32 KB buffer,
  `HttpMessage` the bytes of a message, and `HttpSending` the send loop. `HttpExchange` puts sender and receiver
  together. `HttpLines` says of each line whether it is refused and what it tells the subclass, `HttpLengths` where a
  Content-Length ends a message, and `Ascii` which numbers the library calls read. Section 3.6.1 (chunked coding),
  section 4.2 (headers) and section 4.4 (message length) of RFC 2616.
* **Lock-free queue** (`atomicops.h`). `LockFreeQueue` runs the atomic accesses of one producer and one consumer in
  every interleaving, with 32-bit counters that wrap; the class is the code, each operation a sequence of those steps.
* **Packet framing** (`asynctcpsocket.cc`). `AsyncTcp`: packets with a 16-bit length over a byte stream.
* **Ownership ring** (`linked_ptr.h`). `LinkedPointers`: shared ownership through a circular doubly linked list in the
  heap, with the cascade of destructors when objects own pointers themselves.
* **Disk cache** (`diskcache.cc`, `diskcache.h`). `DiskCaching`: locks, writers, readers and eviction, with running
  totals of sizes and accessors over files. `CacheEviction` says which entries the check of the limit evicts,
  `CacheLocks` that a lock excludes others; `CacheRuns` are runs in which sizes, the scan or a lock go wrong.
* **Base64** (`base64.cc`). `Base64`: the encoder, and the decoder under every combination of its options.
  `Base64Forms`: bytes and verdict for any text, by what stands in it. Section 4 and section 3.5 of RFC 4648.
* **Byte buffer** (`bytebuffer.cc`, `byteorder.h`). `ByteOrder` and `ByteBuffers`: a typed byte queue in an array that
  is moved and replaced, in both byte orders and on both kinds of host.
* **Attributes and Digest** (`httpcommon.cc`). `HttpAttributes`: quoter, composer and parser of attribute lists, and the
  Digest answer (section 3.2.2 of RFC 2617) built with them. `HttpSpelling`: lists as anybody may write them.
  `HttpDigest`: what a server makes of the answer.
* **Retries, redirects and authentication** (`httpclient.cc`). `HttpClients`: the control state of `HttpClient`.

Where the original changes state step by step the model is a class with the same fields, and each method is proved
against a specification: a function of the old state (`HttpClients`, `LinkedPointers`, `Base64`), a reference automaton
(`HttpParsing`), or an abstract value that it keeps (`wire` followed by the buffer in `HttpSending`). What these
functions mean is stated again without them: in the fields, codes and characters themselves, by printers and readers
written for the proofs, or by laws of runs. The main results are lemmas and methods over all inputs, all runs and all
behaviours of the environment.

The environment (network, document streams, files, memory order, the pool of connections, the library's number
parsing) is a nondeterministic choice, or a parameter, within the contracts that the callers rely on: `Read` and
`Write` that succeed move at least one byte and at most what was asked for, the end of a stream comes when all has been
delivered and is final, the hash is a function, and memory is sequentially consistent.

## Where the code does not keep a promise

Each of these is a theorem that says exactly when the promise holds, and a case or a run in which it does not.

* An empty `Content-Length` makes `sscanf` read behind the line (`HttpGrammar.OverreadIff`, on any stream); up to there,
  and for every other stream, the parser agrees with the automaton.
* After a stalled document, the receive loop reads before it parses. If the stream has ended meanwhile it reports success
  and drops what is in its buffer: a document that only the close ends is delivered exactly if the buffer is empty
  (`HttpExchange.CloseDelivers`, run: `HttpExchange.StallsAndCloses`).
* The sender takes the first `Transfer-Encoding` header by its exact bytes, the parser the last one without regard to
  case. A message gets through exactly if they agree, or if the chunks that the parser does not expect look like the
  document up to a given length (`HttpExchange.GetsThroughIff`, cases: `HttpExchange.CodingCaseMatters`). Leaders and
  headers that do not fit the buffer are cut off or left out (`HttpMessage.HeadWholeIff`).
* A `Content-Length` of 4294967295 is taken for no length at all: such a message is not ended by its last byte
  (`HttpLengths.LengthEndsMessage`).
* Without a document, `flush_data` does not return while the network blocks: `HttpSending.HttpSender.Pass` says exactly
  which pass of its loop changes nothing. Every other pass brings the message forward, so that with a document the call
  always returns.
* A packet of exactly 65536 bytes is accepted by `AsyncTCPSocket::Send`, and announced with length 0
  (`AsyncTcp.FrameRoundTripIff`, for sequences `AsyncTcp.FramesRoundTripIff`).
* The queue survives the wrap of its counters, in every run, exactly when the capacity divides 2^32
  (`LockFreeQueue.SurvivesWrapIff`, run: `LockFreeQueue.SomeRunFails`). The comment on `Size()` promises a value in
  [0, capacity]; for a thread that owns neither counter this fails (`LockFreeQueue.SizeForOthersIff`,
  `LockFreeQueue.SizePoppedFirstIff`, `LockFreeQueue.SizeOutOfRange`).
* Nothing keeps a cache file from being opened for writing twice. When the second writer is opened beside the first, and
  the two are closed in either order, the size of the entry is right afterwards exactly if the one that closes first has
  added as many bytes as the second has taken out (`CacheRuns.TwoWriters`, run: `CacheRuns.WritesTwice`). For other
  schedules the ledger in the contracts of opening and closing says how far the size is off.
* The scan for the oldest cache entry ignores locks: `CacheEviction.StuckIff` says when the cache gets stuck on an entry
  in use (case: `CacheEviction.VictimInUse`). When the only free entry is the last one it goes past the end of the map
  (`CacheEviction.PastTheEndIff`): unlocking a single resource larger than the cache is enough (run:
  `CacheRuns.TooLarge`), and the loop need not end (`CacheRuns.DeletesNothing`).
* `LockResource` over the limit may evict the entry that it then locks. On the entries before the call, with an empty one
  for the id if it has none: exactly if that one is neither locked nor being read, and the rounds of the check bring the
  total within the limit and evict it (`DiskCaching.DiskCache.LockResource`, run: `CacheRuns.LocksEvicted`). And they
  evict it exactly if there is a sequence of entries, each preferred by the scan to all that are left and needed to bring
  the total down, that leads to it (`CacheEviction.EvictedIff`).
* A purge takes no notice of locks. Without one, no other lock of a resource succeeds until the lock is given back; a
  purge, which is possible while no stream is open, is the only way (`CacheLocks.Work`, run:
  `CacheLocks.PurgeDropsLocks`).
* Destroying a lock whose entry is gone dereferences null (`DiskCaching.CacheLock.Destroy`).
* If pads are wanted, the Base64 mode that skips white space refuses it behind a text that needs none. Otherwise it
  decodes as the strict mode does without the white space (`Base64Forms.WhiteIs`, case: `Base64Forms.WhiteRefused`).
* An assignment through `linked_ptr` releases the old object before it reads the right-hand side. It is sound exactly if
  neither side lies in an object that goes with the old value (`LinkedPointers.AssignIsSoundIff`, case `p = p->next`:
  `LinkedPointers.NextIsDestroyed`; for a release alone `LinkedPointers.DestroyedTwiceIff`).
* `HttpComposeAttributes` writes lists that `HttpParseAttributes` does not read back: all attributes but the last need
  values, the last one a value or a name, and no name may look to the parser as if it ended early
  (`HttpAttributes.RoundTripIff`). Without a value, a name swallows the comma (`HttpAttributes.ComposedIsReadIff`).

## Model

| member | source | states |
|---|---|---|
| HttpGrammar.SplitInvariance | jni/talk/base/httpbase.cc:80-229 | for every input and every split, going on from the parser's fields with the unprocessed tail gives the same fields, callbacks, document bytes, count and result as the input in one piece |
| HttpGrammar.ParseConcat | jni/talk/base/httpbase.cc:80-142 | the automaton on a concatenation is the automaton on the second part from where the first part left it |
| HttpGrammar.ParseData | jni/talk/base/httpbase.cc:117-138 | document bytes are delivered one for one, and counted against the announced length |
| HttpGrammar.NeverComplete | jni/talk/base/httpbase.cc:80-229 | no input puts the parser into its final state; only complete() does |
| HttpParsing.HttpParser.Process | jni/talk/base/httpbase.cc:80-142 | one call on any buffer, with any partial acceptance by the document, agrees with the byte-wise automaton: continue, block and completion each say where the automaton is and which bytes are left over; it blocks only on data that the document does not take or when the callback of the last line does; behind an overread, all that the automaton delivers before it has been delivered |
| HttpParsing.HttpParser.ProcessLine | jni/talk/base/httpbase.cc:144-229 | a line has the effect and the callbacks that the automaton gives it in each state, except behind an empty Content-Length; what that comes to is said by HttpLines and HttpLengths |
| HttpLines.RefusesIff | jni/talk/base/httpbase.cc:144-229 | a line is refused with a protocol error exactly if it is a header without a colon, a length that is no number, a coding that is neither chunked nor identity, a chunk size that is no number, or stands where the end of a chunk should; any other is told to the subclass once, whose answer is that of the parser |
| HttpLines.NextState | jni/talk/base/httpbase.cc:144-229 | and leads from the leader to the headers, from those to the chunks if the message is chunked and to the data if not, from a size to its data or, if it is zero, to the trailer, and from the end of a chunk to the next size |
| HttpLines.FindColonIff | jni/talk/base/httpbase.cc:154-163 | a header is split at its first colon, unless a NUL stands before |
| HttpLengths.DecimalRoundTrip | jni/talk/base/httpbase.cc:170-174 | every length up to 2^32 - 1, printed in decimal, is read back |
| HttpLengths.LengthOfFields | jni/talk/base/httpbase.cc:164-174 | behind any headers the length is the number printed in the last Content-Length, and unknown without one |
| HttpLengths.LengthEndsMessage | jni/talk/base/httpbase.cc:111-139 | a message with a length of n and no coding: the parser passes on the first n bytes behind the head, stops exactly at the n-th, and waits for more before; only 2^32 - 1 is taken for no length |
| HttpLengths.NoLengthNoEnd | jni/talk/base/httpbase.cc:111-139 | without length and coding every byte behind the head is passed on, and none ends the message |
| Ascii.HexForms | jni/talk/base/httpbase.cc:192-200 | a chunk size may stand behind blanks, a sign or 0x; a minus is taken modulo 2^32 |
| Ascii.DecimalForms | jni/talk/base/httpbase.cc:170-174 | a length may stand behind blanks or a sign, and anything may follow it; a minus is taken modulo 2^32 |
| HttpParsing.HttpParser.Finalize | jni/talk/base/httpbase.cc:236-242 | completion is reported only the first time |
| HttpParsing.ProcessSplit | jni/talk/base/httpbase.cc:80-229 | two real parsers, one fed in two buffers and one in one, end with equal fields, callbacks, processed bytes and results |
| HttpReceiving.HttpReceiver.DoReceiveLoop | jni/talk/base/httpbase.cc:510-589 | bytes received are bytes consumed followed by the buffer, also when the stream ends; the stream is asked at most 21 times, and at least once if there is room; it ends by a close exactly if a read has found the end of the stream or failed, and the error is none for a clean end in a document of unknown length, and otherwise that of the code; overflow only on a full buffer that is one unfinished line; a pause only with nothing left to parse and a read that blocked, a stalled document, or after at least 20 new bytes |
| HttpReceiving.CloseIsSuccessIff | jni/talk/base/httpbase.cc:491-507 | an end by the close of the stream is a success exactly if the close is clean and the automaton is, behind the consumed bytes, in a document of unknown length; if not, the error is that of the code |
| HttpReceiving.HttpReceiver.ProcessBuffer | jni/talk/base/httpbase.cc:561-584 | the unprocessed part moves to the front and nothing is lost, whatever the parser answers |
| HttpReceiving.HttpReceiver.Recv | jni/talk/base/httpbase.cc:451-472 | a new message starts with an empty buffer and a reset parser |
| HttpMessage.HeadWholeIff | jni/talk/base/httpbase.cc:439-446 | leader and headers are on the wire unabridged exactly when each fits the buffer with the line ends queued behind it |
| HttpMessage.FieldsWholeIff | jni/talk/base/httpbase.cc:719-741 | all headers are queued exactly when none is too long for an empty buffer |
| HttpMessage.WantsChunksIff | jni/talk/base/httpbase.cc:433-437 | the sender makes chunks exactly if the value of the first Transfer-Encoding header is chunked |
| HttpMessage.LastChunkedIff | jni/talk/base/httpbase.cc:176-184 | the parser expects them exactly if the value of the last one is chunked, in any case |
| HttpMessage.CodingAgreesOnOne | jni/talk/base/httpbase.cc:433-437 | the two agree if there is no such header, or a single one that says chunked in lower case, or anything that is not chunked in any case |
| HttpMessage.WireExample | jni/talk/base/httpbase.cc:625-741 | the bytes of a small chunked message, spelled out |
| HttpSending.HttpSender.Pass | jni/talk/base/httpbase.cc:609-716 | one pass of the loop brings the message forward, or ends the loop, or changes nothing, and that exactly when only the buffer is left to write, the write blocks and nothing has called for it |
| HttpSending.HttpSender.FlushData | jni/talk/base/httpbase.cc:599-717 | under every schedule of partial writes, blocks and document reads, what is written and buffered is always the message so far; success only when all is written, and otherwise the error of what has failed; it stops short only because a call that it has made blocks; with a document it always returns, without one unless idle passes repeat without end |
| HttpSending.HttpSender.Send | jni/talk/base/httpbase.cc:414-449 | the same from the start of a message, with the same exception; with success, what has been written is the head and then the bare document, or, if the first Transfer-Encoding header says chunked, its chunks and the last chunk |
| HttpSending.HttpSender.QueueHeaders | jni/talk/base/httpbase.cc:719-741 | headers are queued in order and whole, or the buffer has to be written first |
| HttpSending.HttpSender.QueueDocument | jni/talk/base/httpbase.cc:622-684 | one read of the document becomes one framed chunk or plain data, and the end of it the last chunk once |
| HttpSending.HttpSender.FrameChunk | jni/talk/base/httpbase.cc:625-658 | size and line ends are put around data already in the buffer without touching it |
| HttpSending.HttpSender.WriteBuffer | jni/talk/base/httpbase.cc:695-715 | a partial write moves bytes from the buffer to the wire and changes nothing else |
| HttpExchange.HexRoundTrip | jni/talk/base/httpbase.cc:192-200 | the parser reads back every chunk size that the sender prints |
| HttpExchange.ChunkRoundTrip | jni/talk/base/httpbase.cc:192-219 | one chunk delivers its data and leaves the parser before the next size |
| HttpExchange.ChunkedBodyRoundTrip | jni/talk/base/httpbase.cc:625-671 | for every document and every way it is cut into reads, the parser delivers exactly the document, and completes at the last byte |
| HttpExchange.FieldRoundTrip | jni/talk/base/httpbase.cc:154-190 | a header without folding or outer spaces, formatted and parsed, is the same header |
| HttpGrammar.OverreadIff | jni/talk/base/httpbase.cc:164-174 | on any stream the parser reads behind a line exactly when that line, among the headers, is a Content-Length without a value |
| HttpExchange.FieldOverreadsIff | jni/talk/base/httpbase.cc:164-174 | of the headers that the sender formats, exactly an empty Content-Length does so |
| HttpExchange.HeadRoundTrip | jni/talk/base/httpbase.cc:144-229 | leader, headers and the empty line give the events of the head in order, and the state for the body |
| HttpExchange.CodingOfFields | jni/talk/base/httpbase.cc:176-184 | the parser decides on chunks by the last Transfer-Encoding header, without regard to case |
| HttpExchange.MessageRoundTrip | jni/talk/base/httpbase.cc:144-229 | if the first and the last Transfer-Encoding header agree on chunks, a whole message gives leader, headers and the document, up to a length that is given, and ends where the coding or the length says |
| HttpExchange.MissingChunks | jni/talk/base/httpbase.cc:192-219 | a plain document for which the parser expects chunks never gets through |
| HttpExchange.UnseenChunks | jni/talk/base/httpbase.cc:111-142 | chunks for which the parser is not prepared are delivered as they are |
| HttpExchange.GetsThroughIff | jni/talk/base/httpbase.cc:433-437 | a message gets through, up to a length that is given, exactly if the two sides decide alike on chunks, or the unexpected chunks look like the document up to that length |
| HttpExchange.QueuedIsPrefix | jni/talk/base/httpbase.cc:599-717 | at every moment the bytes written and buffered are a prefix of a message with the document as read so far |
| HttpExchange.ExchangeIsSafe | jni/talk/base/httpbase.cc:510-717 | at any point of an exchange the receiver has passed on nothing but a prefix of leader, headers and document, up to a length that is given |
| HttpExchange.ExchangeDelivers | jni/talk/base/httpbase.cc:510-717 | whenever the parser has ended the message, the receiver reports success and has passed on all of it, up to a length that is given, and has taken nothing behind; and the parser ends it only for chunks that the sender has sent to the last, or at that length |
| HttpExchange.NothingToWaitFor | jni/talk/base/httpbase.cc:510-542 | when all of a message that ends itself has been delivered, the pump does not wait for the network |
| HttpExchange.Exchange | jni/talk/base/httpbase.cc:510-717 | send loop and receive loop take turns under any behaviour of network and documents: bytes are neither lost nor made up, what has been passed on is a beginning of the message, and all of it when the parser ends it; any other success is a clean close behind the head of a message without length and coding |
| HttpExchange.Transfer | jni/talk/base/httpbase.cc:414-589 | the same from send() and recv() on |
| HttpExchange.CloseDelivers | jni/talk/base/httpbase.cc:491-542 | a document that the end of the stream ends: success with an empty buffer, and with success the document is whole exactly if the buffer is empty |
| HttpExchange.InDocumentIff | jni/talk/base/httpbase.cc:231-234 | within a message, the parser is in a document of unknown length exactly behind the head of a message without length and coding |
| HttpExchange.CloseInExchangeIff | jni/talk/base/httpbase.cc:491-542 | in an exchange under way, the end of the stream is a success exactly if it is clean and comes behind the head of such a message: never before a given length or the last chunk, and never with a failure |
| HttpExchange.StallsAndCloses | jni/talk/base/httpbase.cc:510-589 | a run that reports success and delivers nothing of the document |
| HttpExchange.CodingCaseMatters | jni/talk/base/httpbase.cc:433-437 | the coding in another case, or taken back by a second header: a document of one byte does not get through |
| LockFreeQueue.StepRefines | jni/talk/base/atomicops.h:92-134 | every atomic step of either thread keeps the invariant and acts on the contents as a bounded queue does |
| LockFreeQueue.RunIsFifo | jni/talk/base/atomicops.h:92-151 | in every interleaving the popped values are a prefix of the pushed ones, the size stays within the capacity, and each operation takes effect at one step |
| LockFreeQueue.NoSlotRace | jni/talk/base/atomicops.h:101-121 | the slot being written is never the one the consumer is about to read |
| LockFreeQueue.TestsAreExact | jni/talk/base/atomicops.h:146-148 | the wrapped counters decide fullness and emptiness as unbounded ones would |
| LockFreeQueue.SlotWithoutWrap | jni/talk/base/atomicops.h:101-121 | the wrap disappears from the slot when the capacity divides 2^32 |
| LockFreeQueue.WrapSafeIff | jni/talk/base/atomicops.h:101-121 | slots less than a round apart never collide exactly when the capacity divides 2^32 |
| LockFreeQueue.SurvivesWrapIff | jni/talk/base/atomicops.h:92-151 | every run is first in first out, however long, exactly when the capacity divides 2^32 |
| LockFreeQueue.Reach | jni/talk/base/atomicops.h:92-134 | every number of pushes up to 2^32 and of pops that the capacity allows is reached by a run |
| LockFreeQueue.SomeRunFails | jni/talk/base/atomicops.h:92-134 | for any other capacity a run whose last pop returns another value than the oldest |
| LockFreeQueue.WrapCorrupts | jni/talk/base/atomicops.h:92-134 | for every other capacity, with 2^32 values pushed and as many unread as are left over, the next push is let through, and the next pop returns its value while the oldest is another |
| LockFreeQueue.SizeForOwners | jni/talk/base/atomicops.h:149-151 | on the threads that own a counter, Size() is the number of values |
| LockFreeQueue.SizeForOthersIff | jni/talk/base/atomicops.h:149-151 | on another thread that loads the pushed count first, Size() is in range exactly when no value pushed after that has been popped before the second load, or so many that the counter has come round to within the capacity |
| LockFreeQueue.SizePoppedFirstIff | jni/talk/base/atomicops.h:149-151 | with the loads in the other order, it is the number of values between them modulo 2^32, in range exactly when there are no more than the capacity, or the counter has come round to within it |
| LockFreeQueue.SizeOutOfRange | jni/talk/base/atomicops.h:149-151 | an interleaving with a third thread in which Size() is 2^32 - 1 |
| LockFreeQueue.FixedSizeLockFreeQueue.PushBack | jni/talk/base/atomicops.h:92-107 | the code is the three steps of the producer, refuses exactly when full, and otherwise appends |
| LockFreeQueue.FixedSizeLockFreeQueue.PeekFront | jni/talk/base/atomicops.h:112-123 | returns the oldest value exactly when there is one |
| LockFreeQueue.FixedSizeLockFreeQueue.PopFront | jni/talk/base/atomicops.h:128-134 | returns and removes the oldest value exactly when there is one |
| LockFreeQueue.FixedSizeLockFreeQueue.Size | jni/talk/base/atomicops.h:149-151 | the number of values, when nothing else runs |
| LockFreeQueue.FixedSizeLockFreeQueue.ClearAndResizeUnsafe | jni/talk/base/atomicops.h:138-143 | an empty queue of the new capacity |
| AsyncTcp.PacketsConcat | jni/talk/base/asynctcpsocket.cc:192-213 | segmentation of the stream does not change the packets: going on from the residue is having had it in one piece |
| AsyncTcp.LengthIsBigEndian | jni/talk/base/asynctcpsocket.cc:117-120 | the length in front of a packet is its size modulo 65536, most significant byte first |
| AsyncTcp.FrameRoundTripIff | jni/talk/base/asynctcpsocket.cc:106-130 | a packet is read back exactly when it has fewer than 65536 bytes, one less than Send accepts |
| AsyncTcp.FramesRoundTrip | jni/talk/base/asynctcpsocket.cc:106-213 | a sequence of packets below 65536 bytes is read back whole, in order, with nothing left |
| AsyncTcp.FramesRoundTripIff | jni/talk/base/asynctcpsocket.cc:106-213 | of the sequences that Send accepts, exactly these are read back |
| AsyncTcp.PrefixDelivers | jni/talk/base/asynctcpsocket.cc:192-213 | what is read from a beginning of the stream is a prefix of the packets sent |
| AsyncTcp.ResidueFits | jni/talk/base/asynctcpsocket.cc:42-47 | the residue never fills the input buffer |
| AsyncTcp.AsyncTCPSocket.Send | jni/talk/base/asynctcpsocket.cc:106-130 | a packet is refused for its size, kept whole, or dropped whole, with the result that goes with each; it is kept exactly if nothing is on its way and the connection takes some of it |
| AsyncTcp.AsyncTCPSocket.Flush | jni/talk/base/asynctcpsocket.cc:215-230 | exactly what the connection takes leaves the buffer from the front; bytes sent followed by the output buffer stay the same |
| AsyncTcp.AsyncTCPSocket.ProcessInput | jni/talk/base/asynctcpsocket.cc:192-213 | signals exactly the whole packets in the input buffer and keeps the residue |
| AsyncTcp.AsyncTCPSocket.OnReadEvent | jni/talk/base/asynctcpsocket.cc:236-273 | all that the connection gives and the buffer holds is taken; delivered packets stay the packets of the bytes received, and the overflow branch is unreachable |
| AsyncTcp.AsyncTCPSocket.OnWriteEvent | jni/talk/base/asynctcpsocket.cc:275-281 | what the connection takes leaves the buffer, and both directions stay as they should |
| AsyncTcp.Communicate | jni/talk/base/asynctcpsocket.cc:106-281 | over any sequence of events the reader gets a prefix of the packets that Send kept, if all are below 65536 bytes; and once the bytes are through, all of them exactly in that case |
| LinkedPointers.JoinedLinked | jni/talk/base/linked_ptr.h:99-110 | inserting a pointer keeps the live pointers partitioned into rings of inverse links, one for each object |
| LinkedPointers.LeftLinked | jni/talk/base/linked_ptr.h:127-136 | so does taking one out |
| LinkedPointers.FromIsRing | jni/talk/base/linked_ptr.h:94-97 | a ring may be begun at any of its pointers |
| LinkedPointers.AloneIffOnlyOwner | jni/talk/base/linked_ptr.h:92 | a pointer is alone in its ring exactly when no other owns its object |
| LinkedPointers.BalancedAfterLeave | jni/talk/base/linked_ptr.h:127-136 | every object ever handed over is owned or has been deleted exactly once, after a release too |
| LinkedPointers.LinkedPtr.constructor | jni/talk/base/linked_ptr.h:60-61 | a new pointer is a ring of its own |
| LinkedPointers.LinkedPtr.Copy | jni/talk/base/linked_ptr.h:64-65 | a copy joins the ring of its original |
| LinkedPointers.LinkedPtr.Unique | jni/talk/base/linked_ptr.h:92 | true exactly for a singleton ring, and for an owner exactly if it is the only one |
| LinkedPointers.LinkedPtr.Acquire | jni/talk/base/linked_ptr.h:99-110 | the rewritten links are the ring with this pointer behind the other |
| LinkedPointers.LinkedPtr.Release | jni/talk/base/linked_ptr.h:127-136 | the rewritten links are the rings without this pointer; exactly its only owner deletes the object, whose destructor releases the pointers in it in turn |
| LinkedPointers.Object.Destruct | jni/talk/base/linked_ptr.h:62-63 | the pointers in an object are released one after the other, with all that goes with them |
| LinkedPointers.LinkedPtr.Assign | jni/talk/base/linked_ptr.h:66-73 | afterwards both own the same object, no other pointer has changed, and what had to go with the old value is gone, provided that this does not destroy either of the two |
| LinkedPointers.DestroyBalanced | jni/talk/base/linked_ptr.h:127-136 | through the whole cascade of destructors the rest stays in rings, and every object is owned or has been deleted exactly once |
| LinkedPointers.DeletedIff | jni/talk/base/linked_ptr.h:127-136 | with a pointer exactly the objects are deleted that no pointer outside of objects, nor one in an object that stays, keeps |
| LinkedPointers.DestroyedIff | jni/talk/base/linked_ptr.h:127-136 | and exactly the pointers in those are destroyed |
| LinkedPointers.DestroyedTwiceIff | jni/talk/base/linked_ptr.h:127-136 | a pointer is destroyed again while it is being released exactly if it lies in one of those objects |
| LinkedPointers.AssignIsSoundIff | jni/talk/base/linked_ptr.h:66-73 | an assignment does not touch what has been destroyed exactly if neither side lies in an object that goes with the old value |
| LinkedPointers.NextIsDestroyed | jni/talk/base/linked_ptr.h:66-73 | so not when a sole owner is assigned a pointer in its own object, as in p = p->next |
| LinkedPointers.AssignKeepsNested | jni/talk/base/linked_ptr.h:66-73 | assignments keep every pointer in one place, and those in owned objects alive |
| DiskCaching.AccessorsAreOpenStreams | jni/talk/base/diskcache.cc:151-152 | the accessors of all entries together are the open streams |
| DiskCaching.FileWithinEntry | jni/talk/base/diskcache.cc:133-139 | the assertion of WriteResource: a file that nobody writes is no larger than its entry says, unless that is too small already |
| DiskCaching.FileChangeOnDisk | jni/talk/base/diskcache.cc:128-154 | a change to one file and its entry keeps every size the total of the files without an open writer, up to a ledger of what second writers take out and add |
| DiskCaching.OpenBalanced | jni/talk/base/diskcache.cc:128-186 | opening a stream keeps readers and writers apart, and the totals the sums over entries |
| DiskCaching.CloseBalanced | jni/talk/base/diskcache.cc:331-360 | so does closing one, whose entry is always there; the last writer of an unlocking entry unlocks it |
| DiskCaching.OpenedForWriting | jni/talk/base/diskcache.cc:133-149 | opening a file for writing puts the size off by its share less what is taken out |
| DiskCaching.ClosedOnDisk | jni/talk/base/diskcache.cc:331-345 | closing a writer puts the size off by what is added less its share |
| CacheRuns.TwoWriters | jni/talk/base/diskcache.cc:128-154 | two writers at a time on one file, with nothing in between, closed in either order: the size is right afterwards exactly if the one that closes first has added what the second has taken out |
| CacheRuns.WritesTwice | jni/talk/base/diskcache.cc:128-154 | a run after which the size is wrong |
| CacheEviction.VictimBeatsRest | jni/talk/base/diskcache.cc:253-257 | the scan prefers its victim to all other entries from the first free one on, by time and place, in use or not |
| CacheEviction.VictimIsFreeIff | jni/talk/base/diskcache.cc:243-257 | the victim can be evicted exactly when a free entry is preferred to all in use behind the first free one |
| CacheEviction.VictimIsOldest | jni/talk/base/diskcache.cc:243-257 | the victim is no younger than any entry from the first free one on, nor than any free entry |
| CacheEviction.OneOrder | jni/talk/base/diskcache.h:87 | the entries have only one order, that of their names |
| CacheEviction.LessIff | jni/talk/base/diskcache.h:87 | names are ordered by the first character in which they differ, and a name before those that it begins |
| CacheEviction.DeletedIffPreferred | jni/talk/base/diskcache.cc:241-263 | a round over the limit deletes exactly a free entry that the scan prefers to all others from the first free one on |
| CacheEviction.LeadsIffDeleted | jni/talk/base/diskcache.cc:241-263 | sequences of entries, each preferred among those left and the total still over the limit, are exactly the beginnings of what the rounds delete |
| CacheEviction.EvictedIff | jni/talk/base/diskcache.cc:229-265 | an entry is evicted exactly when such a sequence leads to it |
| CacheEviction.StuckIff | jni/talk/base/diskcache.cc:241-262 | a round gets stuck on an entry in use exactly when the cache is over the limit, the first free entry is not the last, and no free entry is preferred to all in use |
| CacheEviction.WithinIff | jni/talk/base/diskcache.cc:241-252 | nothing is done exactly within the limit, and nothing can be done exactly if every entry is locked or open |
| CacheEviction.SecondOfEquals | jni/talk/base/diskcache.cc:243-257 | of three entries equally old the second goes |
| CacheEviction.VictimInUse | jni/talk/base/diskcache.cc:253-261 | a cache stuck on a locked entry although another is free |
| CacheEviction.PastTheEndIff | jni/talk/base/diskcache.cc:243-257 | the scan goes past the end exactly when the last entry is the only free one |
| CacheRuns.TooLarge | jni/talk/base/diskcache.cc:156-169 | a run that gets there: a single resource larger than the cache is unlocked |
| CacheRuns.DeletesNothing | jni/talk/base/diskcache.cc:203-206 | with a name from behind the end, deleting succeeds and nothing has changed |
| DiskCaching.DiskCache.LockResource | jni/talk/base/diskcache.cc:114-126 | refused if the entry is locked or being read, and within the limit only then; evicts only entries that are not in use; by the state before the call, true is returned exactly if the rounds of the check end within the limit, and the entry is gone exactly if they also evict it |
| CacheLocks.Work | jni/talk/base/diskcache.cc:98-227 | over any run of calls by others, from a lock on until it is given back, no other lock of the same resource succeeds, and it stays locked, unless the cache is purged |
| CacheLocks.TwoLocks | jni/talk/base/diskcache.h:116-128 | of two lock objects for one id, with any such run between them, both hold only if the first has locked what had been evicted |
| CacheLocks.PurgeDropsLocks | jni/talk/base/diskcache.cc:98-112 | after a purge a locked resource is locked again |
| CacheRuns.LocksEvicted | jni/talk/base/diskcache.cc:114-126 | a run in which the locked entry has been evicted |
| DiskCaching.DiskCache.WriteResource | jni/talk/base/diskcache.cc:128-154 | opens a writer exactly on a locked entry whose file can be opened, takes the old bytes out of both totals, and keeps all books; beside another writer what is taken out goes into the ledger |
| DiskCaching.DiskCache.UnlockResource | jni/talk/base/diskcache.cc:156-169 | unlocks, upon which exactly the entries go that the rounds of the check evict, or marks for unlocking while writers are open |
| DiskCaching.DiskCache.ReadResource | jni/talk/base/diskcache.cc:171-186 | opens a reader exactly on an unlocked entry and an existing stream whose file can be opened, and keeps all books |
| DiskCaching.DiskCache.ReleaseResource | jni/talk/base/diskcache.cc:331-360 | the entry is there; bytes of a writer's file count again, beside another writer in the ledger; the last writer unlocks, upon which exactly the entries go that the rounds evict |
| DiskCaching.DiskCache.DeleteResource | jni/talk/base/diskcache.cc:203-227 | exactly an entry neither locked nor open goes, with its size and with those of its files that can be deleted; success exactly if all can be, or there was no entry |
| DiskCaching.DiskCache.Scan | jni/talk/base/diskcache.cc:243-258 | the two loops find no victim, go past the end, or find the one that the lemmas speak of |
| DiskCaching.DiskCache.CheckLimit | jni/talk/base/diskcache.cc:229-265 | only unlocked entries without accessors go, one each round, so that it ends unless the scan goes past the end; which go and how it ends is what the rounds come to on the entries before, unless one of them has a file that cannot be deleted |
| DiskCaching.DiskCache.Purge | jni/talk/base/diskcache.cc:98-112 | refused exactly while streams are open or if the files cannot be deleted; otherwise all is gone but the total size stays |
| DiskCaching.CacheLock.constructor | jni/talk/base/diskcache.h:116-120 | refused if the entry is locked or being read, and within the limit only then; holds the lock if it says so, unless the entry has been evicted on the way, and that exactly if the rounds on the entries before evict it |
| DiskCaching.CacheLock.Destroy | jni/talk/base/diskcache.h:121-128 | an uncommitted resource without open writers is gone; with one it stays and is marked for unlocking; one that another caller has unlocked goes unless it is in use; without an entry the code dereferences null |
| Base64.EncodeFromArray | jni/talk/base/base64.cc:84-120 | the loop computes the encoding of RFC 4648 |
| Base64.EncodeIsReference | jni/talk/base/base64.cc:84-120 | the encoding is that of the reference: the alphabet written out, groups of 24 bits, and pads |
| Base64.GetNextQuantum | jni/talk/base/base64.cc:122-174 | the loop reads the next quantum of the specification, zeroes the rest of the buffer, and gives back pads that do not fill it up |
| Base64.DecodeFromArray | jni/talk/base/base64.cc:187-241 | the loop computes bytes, verdict and used length of the specification for all options |
| Base64.RoundTrip | jni/talk/base/base64.cc:84-241 | under all options an encoding decodes to its bytes; it is refused, or not used up, exactly when pads may neither be read nor skipped |
| Base64.StrictIsCanonical | jni/talk/base/base64.cc:122-241 | the strict mode accepts a string exactly if it is the encoding of what it decodes to, that is, exactly the encodings |
| Base64.LaxIgnoresTheRest | jni/talk/base/base64.cc:127-240 | in the lax modes the bytes are those of the subsequence of alphabet characters, and so is the verdict unless pads or the whole buffer are wanted |
| Base64.LaxRecovers | jni/talk/base/base64.cc:127-240 | an encoding strewn with anything else decodes to its bytes |
| Base64Forms.StrictIs | jni/talk/base/base64.cc:122-241 | without skipping, under all other options and on any text: the bytes are those of the alphabet characters in front, pads are used if they are allowed and complete, and the verdict follows from the bits left over, the pads, and what is behind |
| Base64Forms.WhiteIs | jni/talk/base/base64.cc:122-241 | the mode that skips white space decodes as the strict one does without it, except that, if pads are wanted, it refuses white space behind a text that needs none |
| Base64Forms.WhiteRefused | jni/talk/base/base64.cc:187-241 | a text of three bytes that is refused with a line feed behind it, and one of a single byte that is not |
| Base64Forms.LaxIs | jni/talk/base/base64.cc:122-241 | in the lax modes the bytes are those of the alphabet characters, wherever they stand; if neither pads nor the whole buffer are wanted, the verdict depends on the bits left over alone |
| Base64.CharCode | jni/talk/base/base64.cc:30-74 | the two tables are inverse to each other and agree with IsBase64Char |
| ByteOrder.FromBEOfBE | jni/talk/base/byteorder.h:56-95 | big-endian bytes give back their number |
| ByteOrder.FromLEOfLE | jni/talk/base/byteorder.h:97-136 | little-endian bytes give back their number |
| ByteOrder.BE4 | jni/talk/base/byteorder.h:60-65 | the shifts of SetBE32 are the big-endian bytes |
| ByteOrder.LE4 | jni/talk/base/byteorder.h:101-106 | the shifts of SetLE32 are the little-endian bytes |
| ByteOrder.FromBE8 | jni/talk/base/byteorder.h:86-95 | the shifts of GetBE64 are the big-endian value |
| ByteOrder.NetworkImage | jni/talk/base/byteorder.h:139-155 | on either host a number converted to network order lies in memory most significant byte first |
| ByteOrder.FromNetworkImage | jni/talk/base/byteorder.h:157-168 | and such bytes convert back to their value |
| ByteOrder.SwapTwice | jni/talk/base/byteorder.h:144-168 | the two conversions are inverse |
| ByteBuffers.ThreeOfFour | jni/talk/base/bytebuffer.cc:170-177 | three of the four bytes are the number modulo 2^24, on either host and in either order |
| ByteBuffers.FourFromThree | jni/talk/base/bytebuffer.cc:98-113 | three bytes read into a zeroed number of four have the value of the three |
| ByteBuffers.OrderIs | jni/talk/base/bytebuffer.cc:80-187 | network order is most significant byte first on any host, and host order that of its memory |
| ByteBuffers.ByteBuffer.Resize | jni/talk/base/bytebuffer.cc:201-214 | keeps the queue, or its front if it is made too small, at the start of a new array, which grows by half at least |
| ByteBuffers.ByteBuffer.WriteBytes | jni/talk/base/bytebuffer.cc:193-199 | appends, resizing when there is no room |
| ByteBuffers.ByteBuffer.ReadBytes | jni/talk/base/bytebuffer.cc:151-159 | takes from the front exactly when there is enough |
| ByteBuffers.ByteBuffer.ReadString | jni/talk/base/bytebuffer.cc:139-149 | likewise, appended to what the caller has |
| ByteBuffers.ByteBuffer.Consume | jni/talk/base/bytebuffer.cc:216-222 | drops from the front exactly when there is enough |
| ByteBuffers.ByteBuffer.Shift | jni/talk/base/bytebuffer.cc:224-232 | drops from the front and moves the rest to the start of the array |
| ByteBuffers.ByteBuffer.WriteUInt8 | jni/talk/base/bytebuffer.cc:161-163 | appends the byte |
| ByteBuffers.ByteBuffer.WriteUInt16 | jni/talk/base/bytebuffer.cc:165-168 | appends the two bytes in the order of the buffer, on either host |
| ByteBuffers.ByteBuffer.WriteUInt24 | jni/talk/base/bytebuffer.cc:170-177 | appends the low three bytes |
| ByteBuffers.ByteBuffer.WriteUInt32 | jni/talk/base/bytebuffer.cc:179-182 | appends the four bytes |
| ByteBuffers.ByteBuffer.WriteUInt64 | jni/talk/base/bytebuffer.cc:184-187 | appends the eight bytes |
| ByteBuffers.ByteBuffer.ReadUInt8 | jni/talk/base/bytebuffer.cc:80-84 | takes one byte |
| ByteBuffers.ByteBuffer.ReadUInt16 | jni/talk/base/bytebuffer.cc:86-96 | takes two bytes and gives their value in the order of the buffer, on either host |
| ByteBuffers.ByteBuffer.ReadUInt24 | jni/talk/base/bytebuffer.cc:98-113 | takes three bytes and gives their value |
| ByteBuffers.ByteBuffer.ReadUInt32 | jni/talk/base/bytebuffer.cc:115-125 | takes four bytes and gives their value |
| ByteBuffers.ByteBuffer.ReadUInt64 | jni/talk/base/bytebuffer.cc:127-137 | takes eight bytes and gives their value |
| ByteBuffers.UnwireOfWire | jni/talk/base/bytebuffer.cc:80-187 | what is read of the bytes of a number is the number |
| ByteBuffers.Converse | jni/talk/base/bytebuffer.cc:80-232 | any mixture of typed writes and reads, dropping at the front by Consume or Shift and at the end by Resize, growing and moving: items read are those written at their place, and the buffer holds the others in order |
| HttpAttributes.QuoteString | jni/talk/base/httpcommon.cc:715-725 | the loop computes the quoted-string of section 2.2 of RFC 2616 |
| HttpAttributes.Escape | jni/talk/base/stringencode.cc:63-83 | never writes beyond the buffer, and escapes everything if it fits |
| HttpAttributes.EscapeAttribute | jni/talk/base/httpcommon.cc:243-249 | the buffer of twice the length and one is always enough |
| HttpAttributes.ComposeAttributes | jni/talk/base/httpcommon.cc:253-266 | the loop writes the list that the lemmas speak of, with commas |
| HttpAttributes.ParseAttributes | jni/talk/base/httpcommon.cc:268-316 | the nested loops compute the attributes of the specification on every text |
| HttpAttributes.QuotedEscaped | jni/talk/base/httpcommon.cc:293-303 | whatever is quoted is read back, up to the closing quote |
| HttpSpelling.EscapedIs | jni/talk/base/stringencode.cc:63-83 | the writers put a backslash before quotes and backslashes, one of them before NUL, and before nothing else |
| HttpSpelling.QuotedIs | jni/talk/base/httpcommon.cc:293-303 | any spelling of a quoted text in which quotes and backslashes are escaped is read as what it means |
| HttpSpelling.UnclosedIs | jni/talk/base/httpcommon.cc:293-303 | without a closing quote it is read to the end, where a backslash stands for itself |
| HttpSpelling.ListIsRead | jni/talk/base/httpcommon.cc:268-316 | any list of names, names with words and names with quoted texts, however spaced, escaped and separated, is read as these, if names alone are followed by a space and words by a space or a comma |
| HttpSpelling.ReadableIs | jni/talk/base/httpcommon.cc:226-242 | what looks like the end of a name: a space, or a = that is followed by neither a space, another =, nor the end |
| HttpAttributes.ComposedIsReadIff | jni/talk/base/httpcommon.cc:226-316 | what the parser makes of any composed list is the list with commas swallowed, exactly when nothing in a name looks like its end |
| HttpAttributes.RoundTripIff | jni/talk/base/httpcommon.cc:226-316 | any composed list is read back exactly when all attributes but the last have values, the last has a value or a name, and nothing in a name looks like its end |
| HttpAttributes.AnswerDigest | jni/talk/base/httpcommon.cc:791-863 | the answer is the scheme and the parts of section 3.2.2 of RFC 2617, with qop and opaque exactly if challenged |
| HttpAttributes.AnswerIsRead | jni/talk/base/httpcommon.cc:715-863 | the answer parses into its scheme and exactly the values that went into it, whatever characters they have |
| HttpDigest.ServerAccepts | jni/talk/base/httpcommon.cc:791-863 | a server that parses the answer, and hashes what it reads with the password that it knows, gets the response that was sent |
| HttpDigest.AnswerText | jni/talk/base/httpcommon.cc:830-863 | the text of the answer, attribute by attribute |
| HttpDigest.LookupIs | jni/talk/base/httpcommon.cc:318-331 | a look-up finds the value of the first attribute of that name, and nothing exactly if there is none |
| HttpClients.AnswersIff | jni/talk/base/httpcommon.cc:746-863 | credentials are sent exactly if none have been since the last redirect, there are some, a scheme is known and the document rewinds; the first known scheme is answered |
| HttpClients.NeverTwice | jni/talk/base/httpcommon.cc:762-796 | with a context, or without a user name, no challenge is answered |
| HttpClients.Completed | jni/talk/base/httpclient.cc:693-791 | after any outcome the connections used and those still possible do not grow, and the end is signalled once |
| HttpClients.OneRequest | jni/talk/base/httpclient.cc:324-436 | over every run one start() asks for at most 2 * (kMaxRedirects + 1) * (retries + 1) connections, and signals its end exactly once |
| HttpClients.BoundIsMet | jni/talk/base/httpclient.cc:693-791 | a run that needs exactly that many, for every number of retries |
| HttpClients.EndsWell | jni/talk/base/httpclient.cc:693-791 | an event ends the request well, or is followed by a further start, and the first exactly if it is a whole final response that neither redirects nor can be answered, as said by status, Location, action, verb, count, user name and schemes |
| HttpClients.EndsWellIff | jni/talk/base/httpclient.cc:324-436 | over every run, a finished request has ended well exactly if the cache has served its last start without an error, or that was not served and such a response has come |
| HttpClients.FollowsIff | jni/talk/base/httpclient.cc:425-436 | a final response makes the client start again as a redirect exactly if it is in the three hundreds with a Location, not the sixth, and the configuration, a 303, or the verb allow it, and the document can be sent again or is not needed; then no credentials have been sent, and after 303 it is a GET without a document |
| HttpClients.AnswersChallengeIff | jni/talk/base/httpclient.cc:748-791 | and with credentials exactly if it is no redirect but a 407 behind a proxy, there is a user name, none have been sent since the last redirect, a scheme is Basic or Digest, and the document can be sent again; the first such scheme is answered |
| HttpClients.RetriesIff | jni/talk/base/httpclient.cc:693-711 | an error makes it connect again exactly if the connection was lost or refused, the status is still 500, retries are left and the document can be sent again; otherwise it is signalled |
| HttpClients.GoesOn | jni/talk/base/httpclient.cc:711-720 | without an error connecting leads to sending, sending to receiving, and an informational response to another |
| HttpClients.StartAsks | jni/talk/base/httpclient.cc:324-398 | a start asks the cache and then the pool, unless a request is in progress or would be sent in chunks |
| HttpClients.NothingToConnect | jni/talk/base/httpclient.cc:385-398 | a pool without streams uses up the retries, each of which asks it once, and that is the end |
| HttpClients.HttpClient.Start | jni/talk/base/httpclient.cc:324-383 | does what the state machine of the laws above says, and terminates with all retries |
| HttpClients.HttpClient.ConnectToServer | jni/talk/base/httpclient.cc:385-398 | likewise, also when the pool refuses again and again (NothingToConnect) |
| HttpClients.HttpClient.OnHttpComplete | jni/talk/base/httpclient.cc:693-791 | likewise, for retries (RetriesIff), sending and receiving (GoesOn) |
| HttpClients.HttpClient.OnResponse | jni/talk/base/httpclient.cc:720-791 | likewise, for redirects (FollowsIff) and challenges (AnswersChallengeIff) |

## Left out

- HttpParsing.HttpParser.Process: ProcessLeader, ProcessHeader and ProcessHeaderComplete are functions of their arguments; sscanf in parseLeader can also run past the end of a line, which this does not show.
- HttpParsing.HttpParser.ProcessLine: what sscanf makes of a number over 32 bits is a parameter, and behind an empty Content-Length it is anything.
- HttpReceiving.HttpReceiver.DoReceiveLoop: the limit on rounds is per call; what happens between calls is left to the caller.
- HttpSending.HttpSender.FlushData: where the code would go on with idle passes for ever, the model gives up after a number that the caller chooses. Write never reports the end of the stream.
- HttpSending.HttpSender.Send: a chunked header without a document sends no last chunk, as in the code; the stream is connected.
- HttpBase::DocumentStream, isConnected, and the signals of streams: events come from the environment.
- HttpExchange.MessageRoundTrip: folded header lines and values with outer spaces are excluded, since the parser trims them; repeated headers keep the order of the header map.
- LockFreeQueue.StepRefines: memory is sequentially consistent; the barriers are not modelled.
- AsyncTcp.FramesRoundTrip: requires packets below 65536 bytes, the exact condition of FramesRoundTripIff.
- AsyncTcp.AsyncTCPSocket.OnReadEvent: listening, accepting, connecting, closing, SendRaw and SendTo are left out; the connection never takes more than it is offered; how much it takes or gives, or that it fails, is a parameter.
- LinkedPointers.LinkedPtr.constructor: the object must not have been given to another raw-pointer constructor, for which the class has no defence; conversions between pointer types are left out.
- LinkedPointers.LinkedPtr.Release: where a pointer is destroyed again while it is being released, or read after that by Assign, the behaviour is undefined, and the model stops there.
- DiskCaching.DiskCache.LockResource: what marking an evicted entry overwrites is left out, here and in CacheLock; when a file cannot be deleted the code gives up, and the contract then says only that it was a file of an entry that the rounds evict.
- DiskCaching.DiskCache.WriteResource: an id without an entry is dereferenced by the code, here and in UnlockResource and ReadResource, and is excluded; sizes do not wrap at 32 bits; whether a file can be opened is a parameter, here and in ReadResource.
- DiskCaching.DiskCache.CheckLimit: past the end of the map the behaviour is undefined, and the model stops there.
- DiskCaching.DiskCache.Purge: the total size that it leaves behind is kept as a ghost amount in the sums; whether the files can be deleted is a parameter.
- DiskCaching.DiskCache.ReleaseResource: the agreement of sizes with the disk, up to the ledger, is kept while no file fails to be deleted.
- Disk cache start-up, HasResource, and the mapping of ids to file names.
- Base64.GetNextQuantum: masked shifts are written as arithmetic on bytes, and disjoint bits joined as sums.
- ByteBuffers.ByteBuffer.Resize: sizes do not wrap, and a buffer is not written from its own array; null output pointers, for which the reads return false, are left out.
- HttpAttributes.ComposeAttributes: the separator is a comma; other separators are not skipped by the parser.
- HttpAttributes.AnswerDigest: the hash is a parameter that yields hexadecimal digits; it takes whole strings, where the code stops at a NUL.
- HttpClients.HttpClient.OnHttpComplete: the base reports completions as separate events, where the code may nest them; every call in question is the last thing its caller does.
- HttpClients.HttpClient.Start: headers, URLs and the states of the cache are left out; whether the cache serves a request is a choice of the environment. CompleteValidate tests its error the wrong way round and is not modelled.
- HTTP server, list3, bandwidth smoothing, random generators, IP addresses, firewall rules, window pickers, D-Bus, JNI and XMPP: foreign calls, or members that would only add easy lemmas.
- SSPI and NTLM authentication, chunk extensions (the parser rejects them), and date arithmetic of caching.
