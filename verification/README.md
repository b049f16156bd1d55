# Cloak-c: verified models

Cloak-c is a single-threaded multiplexing transport: streams are cut into numbered, encrypted frames, the frames cross a
pool of connections dressed as TLS records or WebSocket messages, and a receiver rebuilds the streams. This project
models its stateful core in Dafny and proves what the code is for, over every input and every run.

Each component is a pair. A value-level machine (datatypes and functions) carries the theorems about whole runs; a class
or a method over arrays has the source's loops and in-place updates, and is proved to take exactly that machine's steps.

| files | component |
|---|---|
| `Wrappers`, `Bytes`, `Heap`, `Ring` | options, big-endian fields, exclusive or, binary heaps, ring arithmetic |
| `ByteQueue`, `MsgQueue`, `Reassembly`, `Delivery`, `Stream`, `Datagrams` | streams, ordered and unordered |
| `Timers`, `Reactor` | the reactor's timer heap, slots and handles |
| `StreamTable` | the open-addressing stream table |
| `WsFrame`, `Framing`, `Fragments`, `Kernel`, `Conn` | connection framing, receive parsers and send queue |
| `FrameCodec` | frame obfuscation |
| `Tunnel` | streams, codec and connections joined end to end |
| `PoolBudget`, `Relay` | the read budget of the pool, the relay pump |
| `Lifecycle`, `Session` | a session's life, with the call stack its callbacks nest on |
| `Bringup`, `Retries`, `Connector` | bringing up a client session, descriptor ownership |
| `ReplyReader` | the resumable handshake-reply reader |
| `ClientHello`, `HelloBuilder` | the ClientHello builder |
| `Ssv` | the option-string editor |

The kernel (how many bytes a read or write takes), random draws, allocator answers and calls into foreign code are
parameters or nondeterministic choices, so every theorem holds for all of them. What the kernel will answer to sends, and
what the session will send from inside a callback, are fields of arbitrary value that the methods consume. The AEAD is any pair of functions with
open after seal the identity; Salsa20's block function is any function to 64 bytes.

Four properties do not hold as one might state them, and the model keeps the code as it is:

- A session call in progress can be left with a freed stream. `libcloak-mux/include/cloak/session.h:81-109` says that
  on_writable can be called inside a write and may release streams there, without excluding the stream being written.
  `Lifecycle.WritableMayReleaseUnderWrite` is the failing run, `Lifecycle.ReleaseSafeExactly` the exact condition, and
  `Lifecycle.Careful` names it as the hypothesis under which all other session theorems hold.
- The relay's read budget counts five framing bytes per frame, and a masked WebSocket-client frame takes eight. A
  stream's first five frames, which are padded, can therefore overflow; later ones cannot.
  `PoolBudget.ClientCanOverflow` is a concrete case, `PoolBudget.ExactlyWhenSafe` the exact condition.
- The receive accumulator can fill when max_frame_len is tiny; `Framing.AccumulatorNeverFills` is the exact condition,
  and every session is far above it.
- The option-string editor loses a key set on a document whose kept fields end in a lone backslash, and may change other
  keys' values then; and it writes keys unescaped. `Ssv.SetThenGet`, `Ssv.SetOthersExactly` and `Ssv.SetThenGetKeys` are
  the exact conditions. The first and last are stated separately: with both an unfit key and a lone backslash a lookup
  can succeed by coincidence (key `=x;`, value `x`, document `\=x\`).

Names: in `Lifecycle`, a `Frame` is a call in progress on the stack; in `Bringup`, `Held` counts the descriptors that
dials and connections have, and the law is held + session's + closed = dialled, each once. In `ClientHello`, a message is a
list of parts; a template is well formed when its bytes and offsets are those of some valid layout, and its placeholder
host is not empty (shift_off would not move an offset equal to the host's own).

## Model

| member | source | states |
|---|---|---|
| Heap.PushOrders | libcloak-mux/src/stream.c:22-44 | a push keeps the parent-before-child order of the pending-frame heap |
| Heap.RemoveOrders | libcloak-mux/src/stream.c:46-72 | removing any position keeps that order |
| Heap.RootIsLeast | libcloak-mux/src/stream.c:46-72 | the root of an ordered heap has the least key |
| Heap.PushKeeps | libcloak-mux/src/stream.c:22-44 | a push adds exactly the new element, as a multiset |
| Heap.RemoveKeeps | libcloak-mux/src/stream.c:46-72 | a removal takes exactly the removed element, as a multiset |
| Heap.SwapUp | libcloak-mux/src/stream.c:32-43 | the in-place sift-up loop of heap_push equals the recursive one |
| Heap.SwapAway | libcloak-mux/src/stream.c:53-71 | the in-place sift-down loop of heap_pop equals the recursive one |
| Reassembly.DrainKeeps | libcloak-mux/src/stream.c:91-112 | draining, in any state between two calls, re-establishes the whole receiver invariant: distinct heap-ordered pending numbers not below the next one expected, every accepted frame either read, queued or pending, bytes read plus bytes queued equal to the payloads 0..next-1, nothing written after closing, and nothing deliverable left in the heap |
| Reassembly.StepKeeps | libcloak-mux/src/stream.c:379-446 | every feed and every read keeps that invariant |
| Reassembly.RunKeeps | libcloak-mux/src/stream.c:379-446 | it holds after every sequence of feeds (any order, duplicates and bad frames included) and reads of any size |
| Reassembly.HeapShape | libcloak-mux/src/stream.c:22-112 | after every run: at most max_pending pending frames, pairwise different numbers, all at or above the next expected one, least at the root |
| Reassembly.ReadVerdicts | libcloak-mux/src/stream.c:418-446 | after every run a read into a non-empty buffer finds nothing if and only if the queue is empty and the next frame was never accepted, and reports end of stream if and only if the queue is empty and the next frame is an accepted closing frame: backpressure strands nothing |
| Reassembly.NextIsRoot | libcloak-mux/src/stream.c:91-112 | a next frame that was accepted but not drained is the heap root and does not fit the free queue space |
| Reassembly.ChunksCarry | libcloak-mux/src/stream.c:249-273 | the frames of one write carry its bytes in order, are numbered consecutively and never exceed the payload limit |
| Reassembly.FramesCarry | libcloak-mux/src/stream.c:202-274 | the frames of any series of writes carry their concatenation, consecutively numbered |
| Reassembly.FramesAppend | libcloak-mux/src/stream.c:202-274 | one more write appends its own chunks behind all earlier frames |
| Reassembly.SenderView | libcloak-mux/src/stream.c:379-446 | whatever subset of the sender's frames was accepted, in whatever order, the bytes read and queued are exactly the payloads of its first `next` frames; a closed stream has them all |
| Reassembly.EndToEnd | libcloak-mux/src/stream.c:202-446 | for every series of writes, every arrival order and subset of the frames and every interleaving of reads: the bytes read are a prefix of the bytes written, equal once all frames were accepted and the queue is drained, and end of stream is reported only after all of them were read |
| Stream.Stream.constructor | libcloak-mux/src/stream.c:114-168 | a fresh stream is the empty receiver with nothing written |
| Stream.Stream.HeapGrow | libcloak-mux/src/stream.c:7-20 | growth keeps the pending frames and never passes max_pending slots |
| Stream.Stream.HeapPush | libcloak-mux/src/stream.c:22-44 | the array push takes the abstract push, refusing exactly at max_pending |
| Stream.Stream.HeapPop | libcloak-mux/src/stream.c:46-72 | the array pop returns the root and takes the abstract removal |
| Stream.Stream.HeapContains | libcloak-mux/src/stream.c:74-81 | found if and only if the number is pending |
| Stream.Stream.TryDrain | libcloak-mux/src/stream.c:91-112 | the drain loop over heap array and ring equals the abstract drain, closing verdict included |
| Stream.Stream.FeedFrame | libcloak-mux/src/stream.c:379-416 | accepting or refusing a frame takes the abstract step with the same return code; Delivery.AcceptsExactly says which frames that step accepts |
| Delivery.AcceptsExactly | libcloak-mux/src/stream.c:379-416 | after every run a frame is accepted if and only if its number was never accepted, the stream has not closed, its payload is at most the queue's capacity and fewer than max_pending accepted frames are waiting; any other is answered -1 and changes nothing; the answer is 1 exactly when this frame's arrival closes the stream |
| Delivery.PendingCount | libcloak-mux/src/stream.c:22-112 | the pending heap holds exactly the accepted frames not yet consumed, each once |
| Delivery.FedIsAccepted | libcloak-mux/src/stream.c:379-416 | given a pending slot for each, a data frame of the sender that is fed is accepted by this feed or was before |
| Delivery.ReadsFinish | libcloak-mux/src/stream.c:418-446 | with all frames accepted, as many non-empty reads as there are bytes left read them all |
| Delivery.EverythingArrives | libcloak-mux/src/stream.c:202-446 | for every series of writes and every order in which their frames are fed, each at least once, with duplicates, a closing frame and reads among them: given enough pending slots and a queue that a frame fits, enough further reads give exactly the bytes written, with no hypothesis on what was accepted |
| Stream.Stream.ReadBytes | libcloak-mux/src/stream.c:418-446 | a read takes the abstract step with the same result, so all run theorems hold of the object |
| Stream.Stream.SendChunks | libcloak-mux/src/stream.c:249-273 | a write whose sink fails after any number of frames has sent exactly that prefix of its chunks and closes the write side |
| Stream.Stream.Write | libcloak-mux/src/stream.c:202-274 | after any series of writes the frames sent are those of the writes recorded, up to a failing sink; a closed stream sends nothing; an unordered one refuses a write longer than a frame before sending anything and stays open |
| Stream.Stream.SendClosing | libcloak-mux/src/stream.c:276-316 | one closing frame at the next number, padded to between 1 byte and the payload limit, and no write after it |
| Datagrams.DeliversInArrivalOrder | libcloak-mux/src/stream.c:330-377 | unordered mode, every run: what was read plus what is queued is exactly the accepted datagrams, whole and in arrival order; the drop counter counts exactly the refused ones; end of stream only after all were read |
| Datagrams.AcceptsExactly | libcloak-mux/src/stream.c:330-377 | after every run without a closing frame a datagram is accepted if and only if it fits the ring behind the datagrams accepted and not yet read, each with its length; one that would fit an empty ring is otherwise dropped and counted, one that never could is refused |
| Datagrams.EndsExactly | libcloak-mux/src/stream.c:418-446 | end of stream is reported if and only if a closing frame was fed and every accepted datagram has been read |
| Datagrams.ClosedExactly | libcloak-mux/src/stream.c:330-377 | an unordered stream is closed exactly when a closing frame was fed |
| Datagrams.FramesAreWrites | libcloak-mux/src/stream.c:246-273 | an unordered stream's frames are its non-empty writes, one each |
| Datagrams.ReadsAreWrites | libcloak-mux/src/stream.c:202-377 | unordered mode end to end: each datagram read is, whole, one of the datagrams written |
| Datagrams.DatagramStream.FeedFrame | libcloak-mux/src/stream.c:330-377 | the object over the datagram ring takes the abstract step with the same return code |
| Datagrams.DatagramStream.ReadDatagram | libcloak-mux/src/stream.c:418-446 | likewise for reads, a short buffer changing nothing |
| Ring.GetAppend | libcloak-common/src/bytequeue.c:30-47 | bytes stored behind n ring bytes, through any wrap, read back as those n bytes followed by the new ones |
| Ring.GetSplit | libcloak-common/src/bytequeue.c:49-64 | reading a ring range in two pieces through any wrap equals reading it at once |
| Ring.StepIsMod | libcloak-common/src/bytequeue.c:30-64 | the compare-and-subtract index step equals addition modulo the capacity |
| ByteQueue.ByteQueue.Write | libcloak-common/src/bytequeue.c:30-47 | all or nothing: either the whole input is appended or the contents do not change; nothing enters a closed queue |
| ByteQueue.ByteQueue.Read | libcloak-common/src/bytequeue.c:49-64 | what was in the queue is what was read followed by what remains |
| ByteQueue.ByteQueue.Peek | libcloak-common/src/bytequeue.c:66-79 | a peek is the prefix a read would return |
| ByteQueue.ByteQueue.Close | libcloak-common/src/bytequeue.c:81-83 | closing keeps the contents |
| ByteQueue.ByteQueue.IsEof | libcloak-common/src/bytequeue.c:93-95 | end of file if and only if closed and empty |
| MsgQueue.Appended | libcloak-mux/src/msgqueue.c:50-82 | storing a length prefix and a body behind the ring's contents, each wrapping on its own, is appending one message to the abstract queue |
| MsgQueue.HeadLayout | libcloak-mux/src/msgqueue.c:84-115 | the ring's first bytes are the first message's length, then its body, then the encoding of the rest |
| MsgQueue.MsgQueue.Write | libcloak-mux/src/msgqueue.c:50-82 | a write queues the whole message or nothing, with exactly the source's verdicts |
| MsgQueue.MsgQueue.PeekLen | libcloak-mux/src/msgqueue.c:84-93 | the peeked length is the first message's |
| MsgQueue.MsgQueue.Read | libcloak-mux/src/msgqueue.c:95-115 | a read takes the first message whole; a buffer too short changes nothing |
| MsgQueue.MsgQueue.Close | libcloak-mux/src/msgqueue.c:125-127 | closing keeps the messages |
| Timers.AddRefines | libcloak-common/src/reactor.c:432-454 | adding refines a map: it fails exactly when no slot is left, and otherwise adds exactly one live (handle, deadline) under a handle never issued before |
| Timers.CancelRefines | libcloak-common/src/reactor.c:456-478 | cancelling removes exactly the named timer; for a handle that is not live nothing changes at all |
| Timers.FireRefines | libcloak-common/src/reactor.c:297-312 | firing removes exactly one live timer, of minimum deadline, and its handle is dead before its callback could cancel it |
| Timers.CancelCostBound | libcloak-common/src/reactor.c:456-478 | a cancel adds at most 2 + log2(n) probe steps |
| Timers.HandlesNeverReturn | libcloak-common/src/reactor.c:65-69 | over every run of add, cancel and fire no handle is issued twice, none is 0, cancelling a handle that is not live does nothing, and only issued handles are live |
| Timers.IdDecodes | libcloak-common/src/reactor.c:432-454 | a handle decodes to its generation and slot, is positive and fits 64 bits |
| Timers.LiveIsMap | libcloak-common/src/reactor.c:432-478 | a handle has one deadline |
| Timers.NamesLive | libcloak-common/src/reactor.c:456-478 | the slot and generation check accepts a handle if and only if it is live |
| Timers.ReleaseFreeList | libcloak-common/src/reactor.c:267-274 | freeing a slot keeps the free list sound and retires a slot at its last generation |
| Heap.UpMovesBound | libcloak-common/src/reactor.c:157-171 | sifting up from i moves at most log2(i + 1) times |
| Heap.DownMovesBound | libcloak-common/src/reactor.c:175-198 | sifting down moves at most log2(n) - log2(i + 1) times |
| Heap.RemoveMovesBound | libcloak-common/src/reactor.c:212-225 | a removal moves at most 1 + log2(n) times |
| Reactor.Reactor.Place | libcloak-common/src/reactor.c:149-152 | a placed timer's slot points back at its position |
| Reactor.Reactor.HeapSiftUp | libcloak-common/src/reactor.c:157-171 | hole-moving sift-up equals the swapping one, keeps every back-pointer right and counts its moves |
| Reactor.Reactor.HeapSiftDown | libcloak-common/src/reactor.c:175-198 | likewise for sift-down |
| Reactor.Reactor.HeapRemoveAt | libcloak-common/src/reactor.c:212-225 | removal at any position equals the abstract one with all back-pointers right |
| Reactor.Reactor.SlotAlloc | libcloak-common/src/reactor.c:229-260 | allocation takes the free-list head or a fresh slot, and fails exactly when neither exists |
| Reactor.Reactor.SlotFree | libcloak-common/src/reactor.c:267-274 | a freed slot gets its next generation or is retired for good |
| Reactor.Reactor.EnsureTimerRoom | libcloak-common/src/reactor.c:276-288 | growth changes no timer |
| Reactor.Reactor.AddTimer | libcloak-common/src/reactor.c:432-454 | the object takes the abstract add |
| Reactor.Reactor.CancelTimer | libcloak-common/src/reactor.c:456-478 | the object takes the abstract cancel, and its probe counter grows by the abstract cost |
| Reactor.Reactor.FireDue | libcloak-common/src/reactor.c:297-312 | fires the root exactly when it is due, taking the abstract step |
| StreamTable.ProbeMiss | libcloak-mux/src/strmtab.c:46-63 | for any hash: a probe that reaches an ABSENT slot, or has seen every slot, proves the key is not in the map |
| StreamTable.PlaceNew | libcloak-mux/src/strmtab.c:115-144 | placing a key at its first ABSENT slot represents the map with that key added, every other key still visible |
| StreamTable.Rewrite | libcloak-mux/src/strmtab.c:146-162 | rewriting an entry in place represents the map with that one key changed |
| StreamTable.RoomStopsProbe | libcloak-mux/src/strmtab.c:115-144 | below full occupancy every probe stops, so an insert never reports a full table |
| StreamTable.ActiveListExact | libcloak-mux/src/strmtab.c:164-170 | the slots scanned as ACTIVE are exactly the map's active entries, each once |
| StreamTable.StreamTable.constructor | libcloak-mux/src/strmtab.c:26-39 | a new table represents the empty map |
| StreamTable.StreamTable.Lookup | libcloak-mux/src/strmtab.c:46-63 | found if and only if the map has the key, tombstones included, with the map's entry |
| StreamTable.StreamTable.GrowTable | libcloak-mux/src/strmtab.c:65-99 | growth keeps the whole map, tombstones included |
| StreamTable.StreamTable.Reinsert | libcloak-mux/src/strmtab.c:82-96 | each reinsertion adds one old entry to the represented map |
| StreamTable.StreamTable.InsertActive | libcloak-mux/src/strmtab.c:115-144 | refused exactly when the key is ACTIVE; otherwise only that key changes |
| StreamTable.StreamTable.MarkDead | libcloak-mux/src/strmtab.c:146-162 | an ACTIVE key becomes a tombstone; anything else is refused and changes nothing |
| StreamTable.StreamTable.ForEachActive | libcloak-mux/src/strmtab.c:164-170 | every active entry is visited once, in slot order, even while the callback tombstones entries, and exactly the tombstoned ones change |
| WsFrame.ParseHeader | libcloak-mux/src/ws_frame.c:82-175 | a complete header lies inside the buffer, has a 4-byte key exactly when masked, and control frames are final and short |
| WsFrame.ParseMonotone | libcloak-mux/src/ws_frame.c:82-175 | a verdict once reached is not changed by further bytes |
| WsFrame.HeaderRoundTrip | libcloak-mux/src/ws_frame.c:195-258 | a written header parses back to the same opcode, length and key whatever follows it |
| WsFrame.MaskTwice | libcloak-mux/src/ws_frame.c:177-193 | masking twice with one key is the identity |
| WsFrame.MaskSplit | libcloak-mux/src/ws_frame.c:177-193 | masking in pieces with a running position equals masking at once |
| WsFrame.ParsePeeked | libcloak-mux/src/conn.c:275-300 | parsing the peeked 14 bytes decides as parsing everything would |
| WsFrame.MaskInChunks | libcloak-mux/src/conn.c:237-254 | masking through a 1022-byte scratch buffer with a running position equals absolute masking by index mod 4 |
| Framing.StepMonotone | libcloak-mux/src/conn.c:160-434 | a parser step that did not wait is the same step when more bytes follow |
| Framing.DispatchAppend | libcloak-mux/src/conn.c:160-434 | dispatching what has arrived and then the rest equals dispatching everything at once |
| Framing.ChunkingIrrelevant | libcloak-mux/src/conn.c:522-593 | however reads are cut, the delivered envelopes, the replies due, the broken verdict and the parser state are those of the concatenated bytes, for TLS records and WebSocket frames with fragments and interleaved control frames |
| Framing.DispatchSettles | libcloak-mux/src/conn.c:436-442 | after dispatching, the parser waits |
| Framing.WaitBound | libcloak-mux/src/conn.c:160-300 | a waiting parser holds less than one maximal record or frame |
| Framing.AccumulatorNeverFills | libcloak-mux/src/conn.c:522-593 | the accumulator cannot fill while the parser waits, if and only if the framing is TLS or max_frame_len (plus 4 for masked peers) is at least 6; the session's minimum of 270 meets it |
| Framing.MessagesBounded | libcloak-mux/src/conn.c:275-434 | no reassembled message and no delivered envelope exceeds max_frame_len |
| Framing.EncodeLen | libcloak-mux/src/conn.c:627-636 | an encoded item takes exactly the bytes the envelope-length functions promise |
| Framing.ItemDecodes | libcloak-mux/src/conn.c:160-434 | the peer's parser takes any encoded frame as exactly its body, and a pong as nothing |
| Framing.AllDecode | libcloak-mux/src/conn.c:160-434 | the encoding of any sequence of accepted items is dispatched by the peer as exactly their bodies, in order |
| Framing.RoundTrip | libcloak-mux/src/conn.c:751-842 | frames accepted for sending reach the peer's envelope callback exactly and in order under every pattern of partial writes (any prefix on the wire) and every cut of the reads, in TLS and both WebSocket directions, while no close was echoed |
| Framing.RoundTripClosed | libcloak-mux/src/conn.c:275-434 | and on a connection that ends with a close: a prefix of the frames before it is delivered, all of them once their bytes are there, and with the close itself the peer echoes it and breaks |
| Framing.PingArrives | libcloak-mux/src/conn.c:338-380 | the bytes of a ping with any payload of at most 125 bytes, masked as this end expects, give a pong with that payload and leave the message being reassembled alone |
| Fragments.PingDispatched | libcloak-mux/src/conn.c:275-434 | dispatching a ping and anything behind it is that pong first, then what dispatching the rest gives |
| Framing.PongArrives | libcloak-mux/src/conn.c:338-380 | the bytes of a pong are consumed without any effect |
| Framing.CloseArrives | libcloak-mux/src/conn.c:338-380 | the bytes of a close give an echo of its payload and break the connection |
| Framing.DataArrives | libcloak-mux/src/conn.c:381-434 | the bytes of a frame that starts a message when none is open, or continues the open one, within the limit extend the message and deliver it exactly when it is final |
| Framing.BadDataBreaks | libcloak-mux/src/conn.c:381-434 | a continuation of no message, a new message inside an open one, or one grown over max_frame_len breaks the connection and delivers nothing |
| Framing.BadHeaderBreaks | libcloak-mux/src/conn.c:275-337 | a frame masked the wrong way or declared over max_frame_len breaks the connection on its header alone |
| Framing.LongRecordBreaks | libcloak-mux/src/conn.c:160-191 | so does a TLS record declared over max_frame_len |
| Fragments.MessageArrives | libcloak-mux/src/conn.c:275-434 | for any cut of a message into a first frame and continuations, any masking keys, any pings and pongs between them and any cut of the reads: exactly one envelope is delivered, the concatenation, each ping is answered with its own payload in order, and the connection is not broken (sections 5.4 and 5.5 of RFC 6455) |
| Conn.Conn.TryDrainSend | libcloak-mux/src/conn.c:99-151 | for every sequence of kernel answers: the wire grows by exactly the bytes they took of the queue, the rest stays queued in order, the connection breaks exactly if an answer was an error, and otherwise write interest is on exactly while bytes are left |
| Conn.Conn.DrainTurn | libcloak-mux/src/conn.c:99-151 | one offer of at most 4096 bytes: what the kernel takes leaves the queue, a full take goes on, anything less arms write interest or breaks |
| Conn.Conn.OnWritable | libcloak-mux/src/conn.c:595-611 | a writable event is one such drain and keeps the connection's invariant |
| Kernel.WillingTakesAll | libcloak-mux/src/conn.c:99-151 | a kernel that takes whatever it is offered, asked often enough, leaves nothing queued |
| Kernel.StopsForAReason | libcloak-mux/src/conn.c:99-151 | a drain stops short only at an error, or an answer that blocked or took less than was offered, and asks for no answer after it |
| Kernel.TookIsTheSum | libcloak-mux/src/conn.c:99-151 | what went out is the sum of what the answers took |
| Conn.Conn.Send | libcloak-mux/src/conn.c:751-842 | a frame that fits is queued encoded and drained at once, so the wire has exactly what the kernel took and write interest is on exactly while bytes are left; a frame too long, a queue too full or a broken connection sends nothing and is reported |
| Conn.Conn.QueueItem | libcloak-mux/src/conn.c:209-256 | all or nothing: an item is queued whole exactly when its envelope fits |
| Conn.Conn.TlsOnce | libcloak-mux/src/conn.c:160-191 | one turn of the record loop is the abstract step; it ends early only when the envelope callback's own send broke the connection |
| Conn.Conn.TakePayload | libcloak-mux/src/conn.c:263-273 | the payload is unmasked and consumed with its header |
| Conn.Conn.WsOnce | libcloak-mux/src/conn.c:275-434 | one turn of the frame loop is the abstract step, the answers due are queued in order, and it ends early only by a failed send |
| Conn.Conn.ControlFrame | libcloak-mux/src/conn.c:338-380 | ping, pong and close take the abstract step; a ping's pong or a close's echo is queued with its payload, and a ping breaks the connection if and only if the queue has no room for the pong or the kernel reports an error; a pong never does |
| Conn.Conn.Deliver | libcloak-mux/src/conn.c:426-434 | the envelope is handed on; the callback sends whatever frames it will on this connection, all of which are queued in order unless the connection breaks |
| Conn.Conn.Answer | libcloak-mux/src/conn.c:338-380 | the pong or echo joins the control frames queued, with the same payload, and is drained; refused exactly when the queue has no room |
| Conn.Conn.DataFrame | libcloak-mux/src/conn.c:381-434 | fragments accumulate and a final frame delivers the whole message |
| Conn.Conn.ExtractAndDispatch | libcloak-mux/src/conn.c:436-442 | the loop equals the abstract dispatch unless a send failed, be it a reply or a callback's, and a send fails only when the kernel reported an error, the queue has no room for a whole frame, or the session asked for a frame over the limit; the control frames queued are the answers due, in order |
| Conn.Conn.OnRead | libcloak-mux/src/conn.c:522-593 | a readable event equals dispatching the longer accumulator unless a send failed for one of those reasons, keeps the answers in order, and leaves room to read more |
| Bytes.LoadStore | libcloak-mux/src/frame.c:6-30 | a stored big-endian value that fits its field loads back |
| Bytes.StoreLoad | libcloak-mux/src/frame.c:6-30 | loading determines the bytes |
| FrameCodec.RoundTrip | libcloak-mux/src/frame.c:75-297 | for every cipher method, stream id, number, closing flag, non-empty payload and padding draw: decoding the encoded frame gives the same frame; the wire is at most 14 + payload + 255 bytes |
| FrameCodec.HeaderLoads | libcloak-mux/src/frame.c:101-104 | the header's four fields load back, the extra-length byte without truncation |
| FrameCodec.Decode | libcloak-mux/src/frame.c:246-297 | any accepted input yields a payload that with header and tag lies inside its buffer |
| FrameCodec.Obfuscate | libcloak-mux/src/frame.c:75-244 | in place: refuses exactly in the source's cases, otherwise the buffer holds the encoded frame |
| FrameCodec.Deobfuscate | libcloak-mux/src/frame.c:246-297 | in place: equals the abstract decoder on every input |
| FrameCodec.KeyXorTwice | libcloak-common/src/salsa20.c:77-96 | applying the keystream twice is the identity |
| FrameCodec.Salsa20Xor | libcloak-common/src/salsa20.c:77-96 | block by block in place equals the keystream by position, and touches nothing behind the range |
| PoolBudget.BudgetHolds | libcloak-mux/src/stream_relay.c:115-199 | any write no longer than the read budget is split into frames that all fit, whichever connection each is sent to, whatever padding its number allows and whatever drains meanwhile: on TLS and WebSocket-server connections always, on WebSocket-client ones from frame number 5 on |
| PoolBudget.ExactlyWhenSafe | libcloak-mux/src/stream_relay.c:115-199 | on any pool, mixed framings included, a list of frames is safe for every draw of connections and paddings if and only if each connection alone has room for all of them, each with 255 extra bytes while its number is below 5 and with the bare tag from then on |
| PoolBudget.ClientCanOverflow | libcloak-mux/src/stream_relay.c:40-43 | a concrete WebSocket-client pool and a write within budget that some draw overflows, if and only if it makes one of the stream's first five frames |
| PoolBudget.WorstOfTls | libcloak-mux/src/stream_relay.c:40-43 | for TLS the worst case in closed form, the padded first frames counted |
| PoolBudget.WorstBound | libcloak-mux/src/stream_relay.c:40-43 | a write's worst case is at most its bytes plus the relay's fixed cost for each frame, for every covered framing |
| PoolBudget.BudgetFrames | libcloak-mux/src/stream_relay.c:115-199 | the budget is at most a whole number of full frames that all fit the least free connection |
| PoolBudget.BudgetIsMost | libcloak-mux/src/stream_relay.c:115-199 | a read size is within the budget if and only if some number of whole frames that all fit the least free connection carries it, it is at most one relay chunk, at most one frame on a stream that may not split, and granted |
| PoolBudget.BudgetIsNothing | libcloak-mux/src/stream_relay.c:115-199 | the budget is 0 if and only if not even one frame fits the least free connection or nothing is granted |
| Relay.ReadProgress | libcloak-mux/src/stream_relay.c:276-325 | a read that returns bytes makes the stream's held bytes and frames strictly smaller |
| Relay.DrainShrinks | libcloak-mux/src/stream_relay.c:276-325 | a drain takes frames off the heap or changes nothing |
| Relay.Relay.TryFill | libcloak-mux/src/stream_relay.c:276-325 | moves stream bytes into the descriptor queue until that is full, the stream has nothing readable, or it ended; the stream's run grows by reads only, and every byte the run has read is on the descriptor or queued, in order |
| Relay.Relay.TryDrain | libcloak-mux/src/stream_relay.c:330-355 | for every sequence of kernel answers: the descriptor gets exactly the bytes they took, in order; it fails exactly when an answer was an error or took nothing, and otherwise reports blocked exactly while bytes stay queued, the last answer having blocked |
| Relay.Relay.Offer | libcloak-mux/src/stream_relay.c:330-355 | one offer: what the kernel takes leaves the queue; taking nothing without saying it would block is a failure |
| Kernel.RelayedStops | libcloak-mux/src/stream_relay.c:330-355 | the relay's drain stops short only when the kernel would block, and fails only when it failed or took nothing |
| Relay.Relay.Pump | libcloak-mux/src/stream_relay.c:387-411 | terminates; every byte the stream's run has read is on the descriptor or queued, in order; on a continue return either the kernel blocked with bytes queued or the stream has nothing readable; it ends only broken, the kernel having failed, or ended with every byte written out |
| Relay.Relay.FrameArrives | libcloak-mux/src/stream_relay.c:715-724 | a frame arriving between two pumps extends the stream's run and disturbs nothing |
| Relay.Relay.DescriptorGetsTheWrites | libcloak-mux/src/stream_relay.c:276-411 | what reaches the descriptor is a prefix of what the far end wrote, and all of it once the stream has finished and the queue is empty |
| PoolBudget.MinConnFree | libcloak-mux/src/switchboard.c:331-343 | the least free space over the pool, 0 for an empty one |
| PoolBudget.RoomSuffices | libcloak-mux/src/switchboard.c:198-270 | if every connection has the worst case free, every sequence of sends fits whichever connection each one picks |
| PoolBudget.CodecIsPlausible | libcloak-mux/src/switchboard.c:198-270 | every draw of the codec is one the pool argument allows for that frame number, and takes exactly the queue space it counts |
| PoolBudget.PlausibleIsDrawn | libcloak-mux/src/switchboard.c:198-270 | every padding the pool argument allows for a frame number is one the codec can draw |
| Lifecycle.StepKeeps | libcloak-mux/src/session.c:25-594 | every API call, callback, nested call, return, timer and destruction keeps the session invariant, if it does not release a stream under a call on that stream |
| Lifecycle.EveryRun | libcloak-mux/src/session.c:25-594 | after every run of careful releases: active_stream_count is the number of ACTIVE entries; an allocated stream is retired exactly when the table does not hold it ACTIVE; teardown is scheduled and on_broken called at most once; no stream and no connection is freed twice; a destroyed session has no pending timer; no call in progress holds a freed stream or connection |
| Lifecycle.ReleaseSafeExactly | libcloak-mux/src/session.c:565-577 | releasing a stream leaves every call in progress with allocated objects if and only if none of them is a call on that stream |
| Lifecycle.NestedSurvives | libcloak-mux/src/session.c:115-152 | whatever a send sets off, connections breaking and consumer calls nested to any depth, the calls in progress below it, the connections and every stream not released in it are still there |
| Lifecycle.FirstStream | libcloak-mux/src/session.c:508-536 | a new session with its first stream is such a session |
| Lifecycle.OnlyTheseFree | libcloak-mux/src/session.c:72-113 | a stream is freed only by releasing that very stream, by the sweep from an empty stack, or by destruction: closing, from however deep, frees nothing |
| Lifecycle.OnlyTheseFreeConns | libcloak-mux/src/session.c:157-163 | connections are freed only by the sweep from an empty stack or by destruction |
| Lifecycle.TeardownNotLost | libcloak-mux/src/session.c:196-275 | a closed session with no call in progress has its teardown or its sweep pending, or nothing left to free |
| Lifecycle.DestroyedIsFinal | libcloak-mux/src/session.c:464-485 | after destruction no timer refers to the session on any continuation, and on_broken is never called again |
| Lifecycle.PassiveCloseKeeps | libcloak-mux/src/session.c:270-275 | a passive close keeps the invariant from inside any call |
| Lifecycle.EnvelopeKeeps | libcloak-mux/src/session.c:290-402 | routing a frame keeps the invariant for every table state and return code of the stream; Lifecycle.RoutesExactly says what it changes |
| Lifecycle.RoutesExactly | libcloak-mux/src/session.c:290-402 | a frame for a closed session or a tombstoned id changes nothing; otherwise its id is afterwards a tombstone if feeding returned 1 or -1 and else ACTIVE with the entry it had, or the new one for an unknown id; the entry is retired exactly then, the count follows, no other id, entry or connection changes, and the consumer is called |
| Lifecycle.ClosesExactly | libcloak-mux/src/session.c:25-594 | a step leaves the session closed if and only if it was closed, a session-closing frame arrived, a connection broke, it was closed or destroyed, or the inactivity check fired with no ACTIVE stream |
| Lifecycle.OpensExactly | libcloak-mux/src/session.c:508-536 | an open of an open session adds exactly one stream, ACTIVE under the next id, unless that id is ACTIVE; a closed one changes nothing |
| Lifecycle.OpensGetDifferentIds | libcloak-mux/src/session.c:508-536 | two opens with fewer than 2^32 opens from one to the other, whatever else happens between them, get different ids |
| Lifecycle.FreeAllKeeps | libcloak-mux/src/session.c:72-95 | freeing every ACTIVE stream frees none twice and leaves no ACTIVE entry |
| Lifecycle.DestroyTimers | libcloak-mux/src/session.c:464-485 | closing and cancelling by the two remembered handles leaves no timer pending |
| Session.Session.constructor | libcloak-mux/src/session.c:404-462 | a new session is the machine's initial state |
| Session.Session.RescheduleInactivity | libcloak-mux/src/session.c:36-40 | at most one inactivity timer is pending |
| Session.Session.RetireStream | libcloak-mux/src/session.c:56-67 | takes the machine's retire step |
| Session.Session.CloseOnce | libcloak-mux/src/session.c:106-113 | only the first call closes |
| Session.Session.ScheduleDeferredTeardown | libcloak-mux/src/session.c:266-268 | takes the machine's scheduling step |
| Session.Session.CloseFromBelow | libcloak-mux/src/session.c:270-275 | takes the passive-close step, changing no stream and no connection |
| Session.Session.OnFrame | libcloak-mux/src/session.c:290-402 | takes the routing step over the real stream table, calling the consumer last; retires on the return codes 1 and -1 only |
| Session.Session.OnData | libcloak-mux/src/session.c:290-402 | feeds the frame to its stream object unless it is late or the session closed, and the code that feeding returns decides the routing step |
| Session.Session.OpenNew | libcloak-mux/src/session.c:508-536 | refused exactly when closed or when the next id is ACTIVE |
| Session.Session.SinkSend | libcloak-mux/src/session.c:42-45 | a send with any nested run is that run of the machine and restores the stack |
| Session.Session.FinishTop | libcloak-mux/src/session.c:552-594 | what close_stream, release_stream and close do after their send is the machine's return step |
| Session.Session.WriteStream | libcloak-mux/src/session.c:42-45 | a stream being written is still allocated when its sends return |
| Session.Session.CloseStream | libcloak-mux/src/session.c:552-563 | whatever the closing frame's send sets off, this stream is still allocated, ends retired and out of the table, no other stream is freed but those the consumer releases, and the calls below are restored |
| Session.Session.ReleaseStream | libcloak-mux/src/session.c:565-577 | frees exactly that stream, once, after closing it if it was open; no other is freed but those the consumer releases meanwhile |
| Session.Session.CloseSession | libcloak-mux/src/session.c:579-594 | closes once and schedules teardown once; by itself it frees nothing, whatever its frame's send sets off |
| Session.Session.CheckTimeout | libcloak-mux/src/session.c:25-31 | closes exactly an idle session, and frees nothing but what the consumer releases meanwhile |
| Session.Session.DeferredTeardown | libcloak-mux/src/session.c:196-205 | schedules the sweep before the consumer is told and does nothing after |
| Session.Session.FreeAllActive | libcloak-mux/src/session.c:93-95 | the table's own iteration with the destroying callback equals freeing every ACTIVE stream at once |
| Session.Session.TeardownSweep | libcloak-mux/src/session.c:157-163 | leaves no ACTIVE stream, no connection and no timer |
| Session.Session.DestroyIt | libcloak-mux/src/session.c:464-485 | likewise, from ordinary code or on_broken, and the session is gone |
| Lifecycle.WritableMayReleaseUnderWrite | libcloak-mux/include/cloak/session.h:81-109 | for any open stream: on_writable, called inside a write of it, may release it, and the write then goes on with a freed stream |
| Bringup.EachDescriptorOnce | libcloak-client/src/client_connector.c:81-586 | on every run every dialled descriptor is in exactly one of dial, connection, session or closed, and closed at most once; nothing else is ever closed |
| Bringup.DoneMeansHandedOver | libcloak-client/src/client_connector.c:182-230 | DONE: exactly one session, owning N dialled descriptors none of which is closed, all other descriptors closed, and one key common to all N connections |
| Bringup.FailedMeansAllClosed | libcloak-client/src/client_connector.c:120-135 | FAILED, also by destruction: every descriptor ever dialled is closed, once |
| Bringup.NoticesAndDials | libcloak-client/src/client_connector.c:154-163 | between callbacks a started connector has been notified exactly once if it ended and never otherwise; dials never exceed num_conn times max_attempts; a running one always has a callback pending for a connection not yet done |
| Bringup.EndedIsSilent | libcloak-client/src/client_connector.c:81-116 | once it ended no dial, handshake or timer of its own can call in, so the late-callback branches are unreachable |
| Retries.FailsExactly | libcloak-client/src/client_connector.c:246-441 | on every step of a pending connector it fails if and only if an attempt failed that was its connection's last or could not be followed by a timer, the handshake could not be set up, the keys disagree or the session refuses, start was refused its timer, or it was destroyed; it is done if and only if this handshake completes the set without such a reason; otherwise every connection is where the event puts it, and one whose attempt failed waits to retry |
| Retries.SucceedsWithinAttempts | libcloak-client/src/client_connector.c:246-441 | on every run in which nothing but attempts fails, the keys agree and every connection fails fewer than max_attempts attempts, the connector never fails, and once nothing of it can call in any more it is done |
| Retries.KickOutcome | libcloak-client/src/client_connector.c:433-441 | the kickoff loop fails if and only if some first attempt fails with no second allowed or no timer; otherwise every connection is dialling or waiting to retry |
| Bringup.HolderIsCounted | libcloak-client/src/client_connector.c:81-104 | the conservation law counts every descriptor a dial or connection has |
| Bringup.CountedHasHolder | libcloak-client/src/client_connector.c:81-104 | and counts none that no dial or connection has |
| Bringup.FailKeeps | libcloak-client/src/client_connector.c:120-135 | failing from any point of a callback, hand-over included, leaves nothing open and keeps the law |
| Bringup.HandKeeps | libcloak-client/src/client_connector.c:208-229 | the hand-over loop, refused at any connection or not, ends handed over or failed with everything closed |
| Bringup.AssembleAfter | libcloak-client/src/client_connector.c:182-230 | a key mismatch, a failed session or a refused connection fails with everything closed; otherwise done under the common key |
| Bringup.KickKeeps | libcloak-client/src/client_connector.c:433-441 | the kickoff loop keeps the invariant though any attempt may fail the whole connector |
| Bringup.RetryKeeps | libcloak-client/src/client_connector.c:260-269 | a retry keeps it |
| Bringup.DialKeeps | libcloak-client/src/client_connector.c:337-408 | a dial's end keeps it, for every outcome |
| Bringup.HandshakeKeeps | libcloak-client/src/client_connector.c:271-335 | a handshake's end keeps it, for every outcome, and the last one finds every connection holding its descriptor |
| Bringup.DestroyKeeps | libcloak-client/src/client_connector.c:567-586 | destruction at any time keeps the conservation law; a session handed over keeps its descriptors |
| Connector.Connector.constructor | libcloak-client/src/client_connector.c:445-549 | a new connector is the machine's initial state |
| Connector.Connector.ReleaseOne | libcloak-client/src/client_connector.c:81-104 | closes exactly what the connection or its dial holds |
| Connector.Connector.ReleaseEverything | libcloak-client/src/client_connector.c:106-116 | the loop closes exactly what all connections hold |
| Connector.Connector.FailNow | libcloak-client/src/client_connector.c:120-135 | takes the failing step |
| Connector.Connector.FinishUp | libcloak-client/src/client_connector.c:154-163 | notifies once, only when ended |
| Connector.Connector.KeysAgreeNow | libcloak-client/src/client_connector.c:171-178 | true if and only if all keys equal the first |
| Connector.Connector.AttachAll | libcloak-client/src/client_connector.c:208-229 | the hand-over loop equals the abstract one |
| Connector.Connector.AssembleNow | libcloak-client/src/client_connector.c:182-230 | takes the assembling step |
| Connector.Connector.RetryOrGiveUp | libcloak-client/src/client_connector.c:246-258 | takes the retry-or-fail step; Retries.FailsExactly says when that fails and that it waits to retry otherwise |
| Connector.Connector.RetryFired | libcloak-client/src/client_connector.c:260-269 | takes the retry step |
| Connector.Connector.HandshakeEnded | libcloak-client/src/client_connector.c:271-335 | takes the handshake step |
| Connector.Connector.DialEnded | libcloak-client/src/client_connector.c:337-408 | takes the dial step |
| Connector.Connector.Attempt | libcloak-client/src/client_connector.c:410-427 | takes the attempt step |
| Connector.Connector.KickoffFired | libcloak-client/src/client_connector.c:433-441 | the loop equals the abstract kickoff |
| Connector.Connector.StartUp | libcloak-client/src/client_connector.c:551-565 | takes the start step |
| Connector.Connector.DestroyIt | libcloak-client/src/client_connector.c:567-586 | takes the destruction step |
| ReplyReader.CutsDoNotMatter | libcloak-client/src/client_transport.c:203-348 | for every reply and every split, the verdict, the byte count and the captured 112-byte prefix equal those of a one-pass scan of the records |
| ReplyReader.NoOverread | libcloak-client/src/client_transport.c:225-348 | feeding at most the bytes wanted consumes them all and keeps the reader's invariant, so no byte behind the third record is taken |
| ReplyReader.GuardUnreachable | libcloak-client/src/client_transport.c:238-315 | the total-size guard never fires |
| ReplyReader.Wanted | libcloak-client/src/client_transport.c:225-233 | while pending at least one byte is wanted, so the reader never parks |
| ReplyReader.TakeByteKeeps | libcloak-client/src/client_transport.c:238-315 | every byte keeps the reader's invariant |
| ReplyReader.FeedAppend | libcloak-client/src/client_transport.c:238-315 | feeding two pieces equals feeding their concatenation |
| ReplyReader.BulkIsFeed | libcloak-client/src/client_transport.c:238-315 | taking a piece of a record in one copy equals taking it byte by byte |
| ReplyReader.HandshakeReader.BytesWanted | libcloak-client/src/client_transport.c:225-233 | equals the abstract count and is positive while pending |
| ReplyReader.HandshakeReader.RecordDone | libcloak-client/src/client_transport.c:203-219 | takes the record-complete step |
| ReplyReader.HandshakeReader.FeedBytes | libcloak-client/src/client_transport.c:238-315 | equals feeding the bytes one by one |
| ReplyReader.HandshakeReader.DoRead | libcloak-client/src/client_transport.c:317-348 | consumes exactly the bytes it counts, and is the abstract reader on them |
| ReplyReader.FeedMatchesScan | fuzz/fuzz_client_reply.c:219-253 | from every reader state, the rest of the stream is judged as the independent one-pass scan judges the record begun and everything behind it |
| ClientHello.WireReads | libcloak-common/src/clienthello.c:578-786 | every valid message layout is accepted by an independent reader of the format, which walks the extension list exactly to the end and finds the layout's random, session id, extensions and host (section 4.1.2 of RFC 8446, section 3 of RFC 6066) |
| ClientHello.FillKeeps | libcloak-common/src/clienthello.c:667-727 | a refill inside an extension body or of a type field keeps the extension list ending where it ended and adds no server_name |
| ClientHello.OffShift | libcloak-common/src/clienthello.c:557-562 | parts that differ in length at one place have equal offsets before it and offsets moved by the difference behind it |
| ClientHello.OverPart | libcloak-common/src/clienthello.c:405-416 | a write inside one field changes that field and nothing else |
| HelloBuilder.EveryLayoutHasTemplate | libcloak-common/src/clienthello.c:578-652 | every valid message with room to grow is a well-formed template's |
| HelloBuilder.BuiltReads | libcloak-common/src/clienthello.c:578-786 | the built message is well nested: handshake length is total minus 4, the extension list ends with the message, and a reader finds the asked-for host, random and session id |
| HelloBuilder.PaddingRule | libcloak-common/src/clienthello.c:597-616 | under 512 bytes unpadded the message is padded to 512, or by one byte when within 5 of it; from 512 on it has no padding extension (section 3 of RFC 7685) |
| HelloBuilder.Shifted | libcloak-common/src/clienthello.c:557-562 | shift_off maps each refill's template offset to its place in the output |
| HelloBuilder.PatchPart | libcloak-common/src/clienthello.c:398-416 | a length field patched by a delta holds the old value plus the delta and nothing else changes |
| HelloBuilder.SpliceHost | libcloak-common/src/clienthello.c:654-665 | the host spliced in, the five lengths that count it are those of the new message |
| HelloBuilder.FillAll | libcloak-common/src/clienthello.c:669-727 | every refill lands in its own field, in order |
| HelloBuilder.Repad | libcloak-common/src/clienthello.c:729-744 | the padding extension shrunk, grown or dropped, both totals right, nothing behind the checked extent touched |
| HelloBuilder.Resize | libcloak-common/src/clienthello.c:746-783 | the ECH payload resized up or down with the tail moved and all four lengths right |
| HelloBuilder.Build | libcloak-common/src/clienthello.c:578-786 | refuses exactly a host not of 1 to 253 bytes and a buffer shorter than the largest extent any phase writes; otherwise the buffer starts with the asked-for message and what lies behind that extent is untouched |
| Ssv.UnescapeEscape | cmd/ck-client/main.c:311-353 | unescape after escape is the identity, and escaping at most doubles |
| Ssv.EscapeHides | cmd/ck-client/main.c:335-353 | an escaped value hides every separator and leaves nothing hidden behind it |
| Ssv.FieldsJoin | cmd/ck-client/main.c:447-497 | cutting a rejoined document gives back the fields that were joined |
| Ssv.SetFields | cmd/ck-client/main.c:447-497 | after a set: the other fields unchanged and in order, then the new one |
| Ssv.SetLeavesOne | cmd/ck-client/main.c:447-497 | exactly one field has that key, the last |
| Ssv.SetLeavesOthers | cmd/ck-client/main.c:447-497 | every other key reads as before |
| Ssv.SetOthersExactly | cmd/ck-client/main.c:447-497 | another key's lookup is unchanged if and only if the kept fields end well, or an earlier field decides it, or neither the last kept field nor the merged one would be returned for it |
| Ssv.SetThenGet | cmd/ck-client/main.c:399-497 | set then get returns the value if and only if it is non-empty and shorter than 512 and the kept fields do not end in a lone backslash, for every key the format can hold |
| Ssv.SetThenGetKeys | cmd/ck-client/main.c:399-497 | because the key is written unescaped, on a well-ended document set then get holds if and only if the key has no unescaped separator, is unchanged by unescaping and fits 127 bytes |
| Ssv.SetLost | cmd/ck-client/main.c:447-497 | after a lone backslash the new field cannot be found at all |
| Ssv.LoneBackslashLosesTheKey | cmd/ck-client/main.c:447-497 | a concrete option string, holding both a semicolon and an equals sign, for that |
| Ssv.UnescapeInto | cmd/ck-client/main.c:311-332 | the buffer holds the unescaped text, and it fails exactly when text and terminator do not fit |
| Ssv.EscapeInto | cmd/ck-client/main.c:335-353 | likewise for escaping |
| Ssv.ScanTo | cmd/ck-client/main.c:373-386 | the first separator no backslash hides, or the limit |
| Ssv.FieldEnd | cmd/ck-client/main.c:357-370 | the end of the field, by the same scan |
| Ssv.FieldKeyIs | cmd/ck-client/main.c:388-394 | true if and only if the unescaped key fits its buffer and equals the one asked for |
| Ssv.CopyKept | cmd/ck-client/main.c:466-488 | copies every field but those under the key, never more than the document's own length |
| Ssv.Conf.GetOption | cmd/ck-client/main.c:399-439 | equals looking the key up in the list of fields |
| Ssv.Conf.SetOption | cmd/ck-client/main.c:447-497 | the document becomes the edited one inside the computed buffer, or stays as it was when the value is too long |
| Ssv.LibraryParse | libcloak-common/src/config_ssv.c:124-205 | the library's own cursor loop over the text sees exactly the editor's fields, in order, and stops at the first it rejects |
| Ssv.LibraryField | libcloak-common/src/config_ssv.c:149-189 | a field is accepted exactly when it has an unescaped equals sign and both unescaped sides fit their buffers |
| Ssv.LibraryScan | libcloak-common/src/config_ssv.c:139-165 | both inner loops stop at the first separator no backslash hides |
| Ssv.GetAgrees | libcloak-common/src/config_ssv.c:124-205 | on text the library accepts, the editor reads what the library parsed, an empty value counting as absent |
| Ssv.LibraryReadsEdit | libcloak-common/src/config_ssv.c:124-205 | the library parses an edited document as the old options without that key, then the new one |
| Tunnel.EndToEnd | libcloak-mux/src/stream.c:202-446 | the whole tunnel: for every series of writes, padding, spreading over connections of any framing among other traffic, partial write, read cut, arrival order and interleaving of reads, the bytes read are a prefix of the bytes written, all of them once all frames were accepted and drained, and end of stream comes only after all |
| Tunnel.EverythingArrives | libcloak-mux/src/stream.c:202-446 | and with no hypothesis on what was accepted: if every frame of the stream reaches it at least once over the pool, in any order, and it has a pending slot for each, enough reads give exactly the bytes written |
| Tunnel.ArrivedWasSent | libcloak-mux/src/session.c:290-402 | only frames the stream sent are ever decoded and routed to it |
| Tunnel.SentArrives | libcloak-mux/src/switchboard.c:198-270 | a frame queued on any connection that was read to its end has arrived, as it was sent |
| Tunnel.EnvelopeIsItem | libcloak-mux/src/conn.c:160-434 | every envelope a connection hands over is the body of a frame queued on it |
| Tunnel.ItemIsEnvelope | libcloak-mux/src/conn.c:751-842 | and once it was read to its end every queued frame has been handed over |

## Left out

- Sockets, epoll, dialling and listeners: reads and writes are nondeterministic byte counts; descriptors are numbers
  that are never reused.
- AEAD, X25519, secp256r1, ML-KEM key material, the CSPRNG and Salsa20's block function: abstract functions or
  parameters.
- Allocation failure: assumed not to happen, except where the source's answer is a plain refusal that is modelled
  (timer slots, reactor timers of the connector, session init).
- 64-bit wrap-around of frame numbers, byte counters and generations: unbounded, except timer deadlines, stream ids and
  timer handles, which have their width.
- EINTR and the retry loops around it.
- The valve: an arbitrary grant up to the request; token buckets and their timers would only add arithmetic.
- Reactor file-descriptor registration and the epoll loop; only timers are modelled. A slot record is split into
  parallel arrays.
- Reactor.Reactor.FireDue: one turn of the expiry loop; callbacks run between turns, as any sequence of add and cancel.
- cloak_switchboard_send: the random pick is an arbitrary choice; its distribution and buffered randomness are left out.
- Conn.Conn.OnRead: a callback that destroys the connection object from inside is not modelled; one that breaks it is.
- Rate pausing of reads and the drained callback of a connection: they change when events happen, not what they do.
- Relay.Relay.Pump: ordered streams only; the fd-to-stream half is covered by the pool budget, its pause and finish
  timers are not modelled.
- Lifecycle: on_broken counts as called when the callback is not set. Contents of streams are those of `Reassembly`, here
  reduced to what feeding a frame returns. Destroying the session from inside a callback other than on_broken, which
  the source forbids, is not an event.
- Session.Session.OnData: the stream object under an id is passed in; the table holds entry numbers, not objects.
- Session: runs over the real stream table; its timers are the set of pending ones, which `Timers` refines, not a reactor
  object, and its connections are numbers.
- The closing-session frame's bytes: any send.
- Back-off delays, browser fallback and error codes of the connector: they do not affect ownership or termination.
- ReplyReader: the end-of-file and error returns of the read, and the write half of the handshake.
- HelloBuilder.Build: key share, random regions, on-curve points, AEAD ids and GREASE values are refills with given
  bytes, the key share's unconditional shift being the same as shift_off's; generation failures are left out; the guard
  against a tail start behind the message is not modelled, as no well-formed template reaches it. The captured byte
  tables themselves are not modelled.
- Ssv: the JSON branches, the truncated copy into the caller's buffer, and the library's conversion of single options.
- client_piper.c, udp_piper.c, client_stack.c, dgram_relay.c, relay.c and the server: their ownership and pump patterns
  repeat those modelled here.
- base64, keygen, log, version and configuration checks: simple members.
