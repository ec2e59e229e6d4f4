# Verified model of the networking library and its example servers

This project models the asynchronous parts of the repository as state machines and proves what
their handlers keep over every run:

- `CircularBuffer.dfy`, `EchoSession.dfy`: the circular byte buffer with two wrapping 64-bit
  counters, and the echo session that keeps one read and one write outstanding on it at once.
- `RoundRobin.dfy`: the group of I/O contexts behind the multithreaded echo server.
- `Message.dfy`, `Framing.dfy`: typed fields in messages, header/payload framing, the reader.
- `HandshakeWord.dfy`, `HandshakePuzzle.dfy`, `Connection.dfy`: the handshake puzzle, byte by byte, and
  one end of a connection (handshake, write chain, reader).
- `EndToEnd.dfy`, `Draining.dfy`: two ends joined by FIFO byte pipes; that everything can be delivered.
- `PostTiming.dfy`, `Interleaving.dfy`, `BeforeHandshake.dfy`: exactly when a message may leave: posted
  now, queued while the handshake word is being written, and queued before that.
- `SharedInbox.dfy`: all connections of a server and the queue of received messages they share.
- `ServerTable.dfy`, `TsQueue.dfy`: the server's table of connections, the guarded queue, `update`.
- `Broadcasts.dfy`: table, connections and clients together: what a broadcast hands out, followed to
  the messages every client receives.
- `Chat.dfy`: the chat server as a refinement of one global broadcast log.
- `Arith.dfy`, `Wrappers.dfy`: wrapping counters and array cells; the option type, and how the
  events of a run are taken one by one.

## How to read it

Each component comes twice. A datatype with a function `Step` is the specification: one step is one
completion handler, one posted task, or the moment the operating system moves bytes for an
outstanding operation. `CanRun` and `Run` give all finite runs, in any interleaving. A class with the
fields of the original carries the imperative handlers; each method's postcondition equates the whole
new state with the specification step on the old state. The lemmas then speak about all runs of
the specification. Those named `RunFollowsEvents` tie each specification to functions of the events
alone: what must have come about after a given sequence of events. A field `fault` records what must never happen (a second read, a second write, a
pop from an empty queue, an access outside the array); the invariants prove that it never does.

`hide` statements only keep definitions away from the solver where a proof does not need them.

## Assumptions about the environment

- A handler runs to its end before the next one starts, per session and per connection.
- A composed read into the circular buffer prepares at most the room that is left and, if there is
  room, at least one byte; it commits what arrived and runs `on_read` in the same step. Without room
  it completes with 0 bytes.
- A composed write from the circular buffer takes its snapshot of `data()` when it is begun, consumes
  what it has sent and runs `on_write` in the same step. A failed write may have sent any part.
- Bytes of one direction arrive in order, each once. The pipe is what one end has sent beyond what
  the other has received.
- `sizeof(message_header<T>)` is 8: an `enum class` kind of four bytes and a `uint32_t`. Both machines
  are little-endian; a kind is modelled as any 32-bit number.
- A field is a string of bytes of its type's size; `>>` is called only with enough payload elements
  (include/custom_net_lib/net_message.hpp:125 does not test for it).
- End to end, messages posted are well-formed (`header.size == payload.size()`), and no byte of a
  message leaves an end before the last byte of that end's handshake word. Posts may come at any
  time: the server of this repository posts its first message from `onClientConnect`
  (src/custom_server.cpp:24-31), before the handshake write is even begun
  (include/custom_net_lib/net_server.hpp:77-94). The code starts the two asynchronous writes
  without ordering them; `PostTiming.dfy`, `Interleaving.dfy` and `BeforeHandshake.dfy` prove exactly in
  which states a message that leaves too early does harm, at either end. With several clients this
  premise is only needed of the connections a theorem is about.
- Bytes leave only through an open socket. A read that completed before its socket was closed may
  still run its handler afterwards, so bytes may still be taken in then.
- The tasks that `SendData` posts for one connection run in the order in which they were posted.
- Received messages are compared on kind, size and the first `size` bytes: the receiving message is
  reused, so a header without payload carries along the previous payload.
- The queue theorems are about one consumer, which is how the program uses it;
  `TsQueues.SafeExactlyWithOneConsumer` shows that this too cannot be dropped.

## Slips in the source, modelled by their evident intent

In tcp_echo_server_circularbuffer_multithreaded.cpp: `commit` lacks its parameter (lines 32-35) but is
called with one (line 114); `index++` (line 176) means `index_++`; `buffer.size()` (line 246) means
`buffer_.size()`; `on_write` (lines 241-253) lacks its closing brace; the constructor of `Session`
initialises a member that does not exist (line 194); `emplace_back()` (line 154) makes null pointers
where contexts are meant.

## Where the code and its comments differ, or a promise fails

- `make_sequence` is wrong for a full window from an unaligned start. An open session never asks for
  one (`EchoSessions.WindowsInDomain`), though it can reach a state where `data()` would be wrong
  (`EchoSessions.OpenAndMissliced`), and a session closed by a failed write can still ask for one
  (`EchoSessions.ClosedAndMissliced`).
- `payload` holds one 32-bit element per field byte, and only `payload.size()` bytes of it are sent.
  The last of several fields therefore never fits: `Messages.FieldSurvivesExact` and
  `Messages.RoundTripExact` give the exact conditions.
- `sendMessageToClient` says it deletes the client (net_server.hpp:136) but has reset its own copy of the
  pointer before, so it erases nulls only: `ServerTable.DeadStaysUntilBroadcast`.
- `idCounter_` (net_server.hpp:264) is not initialised; the model starts it from any value.
- `encrypt_handshake_data` masks the same nibbles for both shifts, so neighbouring nibbles are joined
  rather than exchanged. The model computes what the code computes.

## Model

| member | source | states |
|---|---|---|
| `Arith.WrapDifference` | other_ressources/async_io_with_cpp/tcp_echo_server_circularbuffer_multithreaded.cpp:47-50 | `tail_ - head_` on wrapped 64-bit counters is the true difference of the unbounded ones while that is below 2^64 |
| `Arith.CellOfWrapped` | other_ressources/async_io_with_cpp/tcp_echo_server_circularbuffer_multithreaded.cpp:69-70 | a wrapped counter falls on the same array cell as the unbounded one, for any number of bytes, when the capacity divides 2^64 |
| `Arith.CellDistinct` | other_ressources/async_io_with_cpp/tcp_echo_server_circularbuffer_multithreaded.cpp:69-70 | two positions less than one lap apart never share a cell |
| `Arith.CellIsRemainder` | other_ressources/async_io_with_cpp/tcp_echo_server_circularbuffer_multithreaded.cpp:69-70 | the recursive remainder used throughout is the `%` of the code |
| `CircularBuffers.WrappedSlices` | other_ressources/async_io_with_cpp/tcp_echo_server_circularbuffer_multithreaded.cpp:63-86 | slicing two wrapped counters gives the slices of the unbounded counters, even after overflow, when the capacity divides 2^64 |
| `CircularBuffers.WrappedSlicesExact` | other_ressources/async_io_with_cpp/tcp_echo_server_circularbuffer_multithreaded.cpp:63-86 | that agreement holds for all counters if and only if the capacity divides 2^64 |
| `CircularBuffers.SlicesAreWindow` | other_ressources/async_io_with_cpp/tcp_echo_server_circularbuffer_multithreaded.cpp:63-86 | a window smaller than the capacity, or the whole capacity from an aligned start, is shown as at most two in-bounds slices whose cells are the logical window, index by index |
| `CircularBuffers.OutsideDomain` | other_ressources/async_io_with_cpp/tcp_echo_server_circularbuffer_multithreaded.cpp:72-86 | any other window is shown wrongly: a slice leaves the array or a cell is visited twice |
| `CircularBuffers.MakeSequenceExact` | other_ressources/async_io_with_cpp/tcp_echo_server_circularbuffer_multithreaded.cpp:63-87 | the exact domain of `make_sequence` on 64-bit counters: in bounds and without repetition if and only if size < capacity, or size = capacity from an aligned start; and there it is the logical window |
| `CircularBuffers.StoreElsewhere` | other_ressources/async_io_with_cpp/tcp_echo_server_circularbuffer_multithreaded.cpp:23-30 | bytes stored through slices change no cell the slices do not name |
| `CircularBuffers.StoreAt` | other_ressources/async_io_with_cpp/tcp_echo_server_circularbuffer_multithreaded.cpp:23-30 | bytes stored through slices without repetition are found at the cells of the slices, in order |
| `CircularBuffers.StoreExtends` | other_ressources/async_io_with_cpp/tcp_echo_server_circularbuffer_multithreaded.cpp:23-35 | storing the next bytes less than a lap ahead of the oldest byte still needed leaves every byte still needed in its cell |
| `CircularBuffers.LoadHeld` | other_ressources/async_io_with_cpp/tcp_echo_server_circularbuffer_multithreaded.cpp:42-45 | the cells of a window of held positions yield exactly that piece of the byte history |
| `CircularBuffers.PrepareCells` | other_ressources/async_io_with_cpp/tcp_echo_server_circularbuffer_multithreaded.cpp:23-30 | while there is room, `prepare(n)` succeeds with in-bounds slices over exactly the `n` cells behind the tail |
| `CircularBuffers.PrepareCheckExact` | other_ressources/async_io_with_cpp/tcp_echo_server_circularbuffer_multithreaded.cpp:25-27 | `prepare` throws exactly when size + n exceeds the capacity, if and only if that sum does not itself wrap in 64 bits |
| `CircularBuffers.StoreCommitAppends` | other_ressources/async_io_with_cpp/tcp_echo_server_circularbuffer_multithreaded.cpp:23-35 | bytes stored behind the tail and committed are appended to the contents, and the old contents stay |
| `CircularBuffers.PrepareCommitAppends` | other_ressources/async_io_with_cpp/tcp_echo_server_circularbuffer_multithreaded.cpp:23-35 | prepare, fill through the slices, commit is an append to the FIFO contents, for every amount up to what was prepared |
| `CircularBuffers.ConsumeDrops` | other_ressources/async_io_with_cpp/tcp_echo_server_circularbuffer_multithreaded.cpp:37-40 | `consume(n)` drops exactly the first `n` bytes of the contents |
| `CircularBuffers.DataShowsContents` | other_ressources/async_io_with_cpp/tcp_echo_server_circularbuffer_multithreaded.cpp:42-45 | the slices of `data()` are in bounds and without repetition if and only if the window is in the domain, and then loading them gives the contents |
| `CircularBuffers.CircularBuffer.constructor` | other_ressources/async_io_with_cpp/tcp_echo_server_circularbuffer_multithreaded.cpp:89-91 | a new buffer has both counters at 0 and no contents |
| `CircularBuffers.CircularBuffer.Size` | other_ressources/async_io_with_cpp/tcp_echo_server_circularbuffer_multithreaded.cpp:47-50 | returns the wrapped difference of the counters |
| `CircularBuffers.CircularBuffer.Prepare` | other_ressources/async_io_with_cpp/tcp_echo_server_circularbuffer_multithreaded.cpp:23-30 | returns the slices of the specification `Ring.Prepare`, or `None` for the `length_error`, and changes nothing |
| `CircularBuffers.CircularBuffer.Commit` | other_ressources/async_io_with_cpp/tcp_echo_server_circularbuffer_multithreaded.cpp:32-35 | the whole new value is the old one with the tail advanced modulo 2^64 |
| `CircularBuffers.CircularBuffer.Consume` | other_ressources/async_io_with_cpp/tcp_echo_server_circularbuffer_multithreaded.cpp:37-40 | the whole new value is the old one with the head advanced modulo 2^64 |
| `CircularBuffers.CircularBuffer.Data` | other_ressources/async_io_with_cpp/tcp_echo_server_circularbuffer_multithreaded.cpp:42-45 | returns the slices from head to tail |
| `CircularBuffers.CircularBuffer.StoreCells` | other_ressources/async_io_with_cpp/tcp_echo_server_circularbuffer_multithreaded.cpp:23-30 | the in-place loop over prepared cells equals the specification `Store` on the old array |
| `CircularBuffers.CircularBuffer.LoadCells` | other_ressources/async_io_with_cpp/tcp_echo_server_circularbuffer_multithreaded.cpp:42-45 | the loop over data cells equals the specification `Load` |
| `EchoSessions.InvStart` | other_ressources/async_io_with_cpp/tcp_echo_server_circularbuffer_multithreaded.cpp:198-205 | the session after `start` meets the invariant, for every memory content and every first read size |
| `EchoSessions.ArriveEffect` | other_ressources/async_io_with_cpp/tcp_echo_server_circularbuffer_multithreaded.cpp:203-205 | bytes that arrive for the outstanding read go to the cells following those already received, wherever the array wraps |
| `EchoSessions.TransmitEffect` | other_ressources/async_io_with_cpp/tcp_echo_server_circularbuffer_multithreaded.cpp:237-238 | bytes that leave from the snapshot are the next bytes of the received history after what was already sent |
| `EchoSessions.InvArrive` | other_ressources/async_io_with_cpp/tcp_echo_server_circularbuffer_multithreaded.cpp:203-205 | arriving bytes, in any chunks, keep the invariant while a write is in flight |
| `EchoSessions.InvTransmit` | other_ressources/async_io_with_cpp/tcp_echo_server_circularbuffer_multithreaded.cpp:237-238 | leaving bytes keep the invariant while a read is in flight |
| `EchoSessions.InvReadDone` | other_ressources/async_io_with_cpp/tcp_echo_server_circularbuffer_multithreaded.cpp:207-222 | every completion of a read, failed, empty or not, keeps the invariant and never faults |
| `EchoSessions.InvWriteDone` | other_ressources/async_io_with_cpp/tcp_echo_server_circularbuffer_multithreaded.cpp:241-253 | every completion of a write keeps the invariant and never begins a second write |
| `EchoSessions.InvStep` | other_ressources/async_io_with_cpp/tcp_echo_server_circularbuffer_multithreaded.cpp:203-258 | every handler and every transfer of bytes keeps the invariant |
| `EchoSessions.InvRun` | other_ressources/async_io_with_cpp/tcp_echo_server_circularbuffer_multithreaded.cpp:203-258 | the invariant holds in every reachable state, in any interleaving |
| `EchoSessions.EchoStream` | other_ressources/async_io_with_cpp/tcp_echo_server_circularbuffer_multithreaded.cpp:203-258 | over every run the bytes sent are a prefix of the bytes received, nothing faults, and committed bytes = consumed bytes followed by the buffer contents |
| `EchoSessions.DataSlicesExact` | other_ressources/async_io_with_cpp/tcp_echo_server_circularbuffer_multithreaded.cpp:42-45 | over every run the physical slices of `data()` are in bounds, and then show exactly the bytes committed and not consumed, if and only if the buffer is not full from an unaligned head |
| `EchoSessions.OpenAndMissliced` | other_ressources/async_io_with_cpp/tcp_echo_server_circularbuffer_multithreaded.cpp:207-222 | that condition is needed: for every capacity of at least 2 some open session is full at an unaligned head, where `data()` would leave the array |
| `EchoSessions.RegionsDisjoint` | other_ressources/async_io_with_cpp/tcp_echo_server_circularbuffer_multithreaded.cpp:203-239 | over every run of an open session the area prepared for the read and the snapshot of the write share no array index, and each is in bounds without repetition |
| `EchoSessions.WindowsInDomain` | other_ressources/async_io_with_cpp/tcp_echo_server_circularbuffer_multithreaded.cpp:69-77 | over every run every read window, and every write window of an open session, is in the domain of `make_sequence`; a read for the whole capacity starts at position 0, before anything was sent |
| `EchoSessions.ClosedAndMissliced` | other_ressources/async_io_with_cpp/tcp_echo_server_circularbuffer_multithreaded.cpp:207-238 | openness is needed there: after a failed write a read completion already under way makes `write` take a snapshot that leaves the array |
| `EchoSessions.NoStrandedBytes` | other_ressources/async_io_with_cpp/tcp_echo_server_circularbuffer_multithreaded.cpp:207-258 | in every open state a read is outstanding and the buffer is non-empty exactly when `writing_` is set, exactly when a write is in flight |
| `EchoSessions.FullBufferCloses` | other_ressources/async_io_with_cpp/tcp_echo_server_circularbuffer_multithreaded.cpp:209-221 | a read handler that leaves the buffer full begins a read of 0 bytes, and no run completes that read with the session still open |
| `EchoSessions.ReadDoneOutcome` | other_ressources/async_io_with_cpp/tcp_echo_server_circularbuffer_multithreaded.cpp:207-222 | a read completion keeps the session open and begins the next read, of the size asked for, exactly if it succeeded and brought a byte; it begins a write exactly if it did so and none was in flight; whatever arrived is committed either way |
| `EchoSessions.WriteDoneOutcome` | other_ressources/async_io_with_cpp/tcp_echo_server_circularbuffer_multithreaded.cpp:241-253 | a write completion keeps the session open exactly if it succeeded, and begins another write exactly if it succeeded and committed bytes are left |
| `EchoSessions.RunFollowsEvents` | other_ressources/async_io_with_cpp/tcp_echo_server_circularbuffer_multithreaded.cpp:203-258 | over every run, from its events alone: the session is open if and only if no read completion failed or brought nothing and no write completion failed; a read is outstanding if and only if no read completion failed or brought nothing; a write is in flight exactly from a read that brought bytes, or a write that left some, to its completion; and the bytes received are those that arrived |
| `EchoSessions.DrainSendsAll` | other_ressources/async_io_with_cpp/tcp_echo_server_circularbuffer_multithreaded.cpp:241-253 | from every open state with the invariant some run of at most four further events sends every committed byte back |
| `EchoSessions.ProgramCapacity` | other_ressources/async_io_with_cpp/tcp_echo_server_circularbuffer_multithreaded.cpp:262 | 65536, the capacity the program uses, divides 2^64 |
| `EchoSessions.Session.constructor` | other_ressources/async_io_with_cpp/tcp_echo_server_circularbuffer_multithreaded.cpp:260-263 | a new session: empty buffer of 65536 cells, not writing, open, nothing outstanding |
| `EchoSessions.Session.Begin` | other_ressources/async_io_with_cpp/tcp_echo_server_circularbuffer_multithreaded.cpp:198-200 | `start` brings the object to the start state of the runs |
| `EchoSessions.Session.Read` | other_ressources/async_io_with_cpp/tcp_echo_server_circularbuffer_multithreaded.cpp:203-205 | `read` is the specification `BeginRead` on the whole state |
| `EchoSessions.Session.Write` | other_ressources/async_io_with_cpp/tcp_echo_server_circularbuffer_multithreaded.cpp:224-239 | `write` is the specification `BeginWrite`: flag set, snapshot of `data()` taken |
| `EchoSessions.Session.OnRead` | other_ressources/async_io_with_cpp/tcp_echo_server_circularbuffer_multithreaded.cpp:207-222 | `on_read` is the specification step on the whole state, in its three branches |
| `EchoSessions.Session.OnWrite` | other_ressources/async_io_with_cpp/tcp_echo_server_circularbuffer_multithreaded.cpp:241-253 | `on_write` is the specification step on the whole state, in its three branches |
| `EchoSessions.Session.Close` | other_ressources/async_io_with_cpp/tcp_echo_server_circularbuffer_multithreaded.cpp:255-258 | `close` closes the socket and leaves outstanding operations alone |
| `EchoSessions.Session.CompleteRead` | other_ressources/async_io_with_cpp/tcp_echo_server_circularbuffer_multithreaded.cpp:207-222 | commit, then `on_read`: one step of the run, keeping the invariant; the socket stays open exactly if it was, the read succeeded and brought a byte |
| `EchoSessions.Session.CompleteWrite` | other_ressources/async_io_with_cpp/tcp_echo_server_circularbuffer_multithreaded.cpp:241-253 | consume, then `on_write`: one step of the run, keeping the invariant; the socket stays open exactly if it was and the write succeeded |
| `EchoSessions.Session.StoreArriving` | other_ressources/async_io_with_cpp/tcp_echo_server_circularbuffer_multithreaded.cpp:203-205 | arriving bytes are written into the array in place: one step of the run |
| `EchoSessions.Session.SendOutgoing` | other_ressources/async_io_with_cpp/tcp_echo_server_circularbuffer_multithreaded.cpp:237-238 | leaving bytes are read from the array: one step of the run, and the sent bytes remain a prefix of the received ones |
| `RoundRobin.CountClosed` | other_ressources/async_io_with_cpp/tcp_echo_server_circularbuffer_multithreaded.cpp:174-177 | how often a context was handed out, in closed form, until the index wraps or forever if the number of contexts divides 2^64 |
| `RoundRobin.FairUntilWrap` | other_ressources/async_io_with_cpp/tcp_echo_server_circularbuffer_multithreaded.cpp:174-177 | after any q up to 2^64 queries every context was handed out q / n times, or q / n + 1 times if n does not divide q |
| `RoundRobin.FairForeverExact` | other_ressources/async_io_with_cpp/tcp_echo_server_circularbuffer_multithreaded.cpp:174-187 | that stays true for every number of queries if and only if n divides 2^64 |
| `RoundRobin.EachOnceUntilWrap` | other_ressources/async_io_with_cpp/tcp_echo_server_circularbuffer_multithreaded.cpp:174-177 | before the wrap every n consecutive queries hand out each context exactly once |
| `RoundRobin.EachOnceExact` | other_ressources/async_io_with_cpp/tcp_echo_server_circularbuffer_multithreaded.cpp:174-187 | every window of n queries does so if and only if n divides 2^64 |
| `RoundRobin.IoContextGroup.constructor` | other_ressources/async_io_with_cpp/tcp_echo_server_circularbuffer_multithreaded.cpp:183-187 | a new group has its index at 0 |
| `RoundRobin.IoContextGroup.Query` | other_ressources/async_io_with_cpp/tcp_echo_server_circularbuffer_multithreaded.cpp:174-177 | the query with number q returns the context `Pick` names for q, and the index advances modulo 2^64 |
| `Messages.PopPush` | include/custom_net_lib/net_message.hpp:73-140 | one `>>` undoes one `<<`: the field comes back and the earlier payload is restored exactly |
| `Messages.FieldsFormAStack` | include/custom_net_lib/net_message.hpp:37-43 | for every message and every sequence of fields, popping in reverse returns every field and restores the payload underneath |
| `Messages.PushWellFormedExact` | include/custom_net_lib/net_message.hpp:108-109 | after `<<` header size = payload size if and only if the payload is below 2^32 elements |
| `Messages.PopWellFormedExact` | include/custom_net_lib/net_message.hpp:136-138 | the same after `>>` |
| `Messages.BuildWellFormed` | include/custom_net_lib/net_message.hpp:84-111 | a message built from fields below 2^32 elements in all is well-formed and keeps its kind |
| `Messages.PopAllReads` | include/custom_net_lib/net_message.hpp:125-129 | popping reads field i from byte offset 4 times the sum of the sizes before it |
| `Messages.BuiltField` | include/custom_net_lib/net_message.hpp:84-92 | in a built message field i lies where popping reads it |
| `Messages.ReceivedField` | include/custom_net_lib/connection_net_interface.hpp:212-216 | in a received message field i is read at the same place, and those of its bytes that were sent are there |
| `Messages.LastByteLost` | include/custom_net_lib/connection_net_interface.hpp:263-267 | with all field bytes 1 and a fresh receiving message, a field that outruns the sent bytes does not come back |
| `Messages.FieldSurvivesExact` | include/custom_net_lib/connection_net_interface.hpp:263-267 | after sending `payload.size()` bytes field i comes back, for all values and all earlier states of the receiving message, if and only if 3 times the sizes before it is at most the sizes after it |
| `Messages.RoundTripExact` | include/custom_net_lib/connection_net_interface.hpp:263-267 | push, send, receive, pop is the identity on a layout if and only if the layout has at most one field |
| `Messages.Received` | include/custom_net_lib/connection_net_interface.hpp:182-196 | the received message has the new header and its first `size` bytes; a header of size 0 leaves the old payload in place |
| `Messages.MessageObject.constructor` | include/custom_net_lib/net_message.hpp:46-50 | a new message: given kind, size 0, empty payload, well-formed |
| `Messages.MessageObject.ResizePayload` | include/custom_net_lib/net_message.hpp:87 | `resize` keeps a prefix or appends zero elements |
| `Messages.MessageObject.PushField` | include/custom_net_lib/net_message.hpp:78-113 | `<<` in place is the specification `Push`, and popping would undo it |
| `Messages.MessageObject.PopField` | include/custom_net_lib/net_message.hpp:116-140 | `>>` in place is the specification `Pop`: field and remaining message |
| `Framing.DecodeEncode` | include/custom_net_lib/connection_net_interface.hpp:177-179 | a header read from the bytes it was written as is the same header |
| `Framing.EncodeDecode` | include/custom_net_lib/connection_net_interface.hpp:177-179 | every eight bytes are the wire form of the header they decode to |
| `Framing.WireAt` | include/custom_net_lib/connection_net_interface.hpp:230-267 | every byte of a message on the wire: four bytes of the kind, low byte first, four of the announced size, low byte first, then the first bytes of the payload memory |
| `Framing.HeaderReadAs` | include/custom_net_lib/connection_net_interface.hpp:177-182 | the kind read from eight bytes is the number of the first four, low byte first, the size that of the last four |
| `Framing.ParseAccounts` | include/custom_net_lib/connection_net_interface.hpp:170-228 | bytes consumed = sum of (8 + size) over the frames, plus the partial frame |
| `Framing.ParseFrame` | include/custom_net_lib/connection_net_interface.hpp:230-285 | a frame put in front of any byte string is cut off again, and the rest is parsed as before |
| `Framing.ParseWireAll` | include/custom_net_lib/connection_net_interface.hpp:230-285 | the wire form of any sequence of well-formed messages parses into exactly their kinds, sizes and bytes, without rest |
| `Framing.WireParsesExact` | include/custom_net_lib/connection_net_interface.hpp:230-285 | a message is framed as itself if and only if its header announces its payload size |
| `Framing.FeedAppend` | include/custom_net_lib/connection_net_interface.hpp:170-228 | feeding two pieces one after the other is feeding their concatenation |
| `Framing.ChunkingIndependent` | include/custom_net_lib/connection_net_interface.hpp:170-228 | every split of the stream yields the same queued messages and the same reader state |
| `Framing.FeedFrame` | include/custom_net_lib/connection_net_interface.hpp:170-228 | a whole frame queues exactly one message: the reused one with the new header and payload bytes |
| `Framing.FeedPartial` | include/custom_net_lib/connection_net_interface.hpp:170-228 | less than a frame queues nothing and is held back byte for byte |
| `Framing.ReaderParses` | include/custom_net_lib/connection_net_interface.hpp:170-228 | the incremental reader is the reference parser: same frames, and the bytes held back are the parser's rest |
| `Framing.FeedExtends` | include/custom_net_lib/connection_net_interface.hpp:150-168 | messages once queued are never changed or removed by later bytes |
| `Framing.PrefixDelivers` | include/custom_net_lib/connection_net_interface.hpp:150-228 | fed any prefix of the wire form of well-formed messages, the reader has queued a prefix of them, and all of them at the end |
| `HandshakeWords.FromLE64OfLE64` | include/custom_net_lib/connection_net_interface.hpp:317-321 | a 64-bit handshake word survives the trip through its eight bytes |
| `HandshakeWords.LE64OfFromLE64` | include/custom_net_lib/connection_net_interface.hpp:302-304 | every eight bytes are the bytes of the word they are read as |
| `HandshakeWords.AnswerIgnoresTop` | include/custom_net_lib/connection_net_interface.hpp:288-292 | the puzzle leaves out the top byte of a word |
| `HandshakeWords.SevenBytesDecide` | include/custom_net_lib/connection_net_interface.hpp:288-292 | words that agree on their first seven bytes have the same answer |
| `HandshakeWords.FlippedAnswer` | include/custom_net_lib/connection_net_interface.hpp:288-292 | changing bit 55 of any word changes the answer |
| `HandshakeWords.AnswerDependsExact` | include/custom_net_lib/connection_net_interface.hpp:288-292 | the first k bytes of a word determine its answer if and only if k is at least 7 |
| `HandshakePuzzle.LE64Drop` | include/custom_net_lib/connection_net_interface.hpp:317-321 | byte k of a word on the wire is its k-th byte from the low end |
| `HandshakePuzzle.PuzzleExact` | include/custom_net_lib/connection_net_interface.hpp:288-292 | for every word and every byte of the answer: its upper half is a constant, its lower half is the upper half of the same byte of the word joined (bitwise or) with that of the byte before, each combined with the key, the last byte left out, and a constant |
| `HandshakePuzzle.OrOfBits` | include/custom_net_lib/connection_net_interface.hpp:291 | the bitwise or of the code is the or of the binary digits of the numbers |
| `HandshakePuzzle.XorOfBits` | include/custom_net_lib/connection_net_interface.hpp:290-292 | the same for exclusive or |
| `Connections.FreshInv` | include/custom_net_lib/connection_net_interface.hpp:28-51 | both kinds of new connection meet the invariant |
| `Connections.StartKeeps` | include/custom_net_lib/connection_net_interface.hpp:58-111 | starting a server or client end keeps the invariant |
| `Connections.PostKeeps` | include/custom_net_lib/connection_net_interface.hpp:128-148 | `SendData` keeps the single write chain: it primes it only for an empty queue |
| `Connections.MessageSentKeeps` | include/custom_net_lib/connection_net_interface.hpp:235-284 | completions of header and payload writes keep the single chain and never pop an empty queue |
| `Connections.ValidationSentKeeps` | include/custom_net_lib/connection_net_interface.hpp:322-334 | completion of the handshake write never starts a second read |
| `Connections.ReceiveMessageKeeps` | include/custom_net_lib/connection_net_interface.hpp:170-228 | bytes for the message reader keep it equal to the reader fed with everything after the handshake |
| `Connections.ReceiveValidationKeeps` | include/custom_net_lib/connection_net_interface.hpp:298-371 | bytes of the handshake word keep the invariant, in any split, right or wrong |
| `Connections.ValidationComplete` | include/custom_net_lib/connection_net_interface.hpp:298-371 | the completed word: a client answers with the puzzle of it; a server validates if it equals its check word and closes otherwise |
| `Connections.StepHistory` | include/custom_net_lib/connection_net_interface.hpp:58-371 | no step changes who a connection is or its challenge; it is started by `Start` alone; bytes received grow by exactly what arrived, messages posted by exactly the one a post brings, bytes sent only grow, and the reader only moves by being fed |
| `Connections.ClosedIsSilent` | include/custom_net_lib/connection_net_interface.hpp:115-121 | a closed connection stays closed, and no byte leaves it any more |
| `Connections.StartEffect` | include/custom_net_lib/connection_net_interface.hpp:58-111 | after a start both ends wait for the other's handshake word, and an open server sends its own |
| `Connections.ClosingEffect` | include/custom_net_lib/connection_net_interface.hpp:115-121 | a failing read and a posted `Disconnect` close the socket; after the former no read is outstanding |
| `Connections.RunFollowsEvents` | include/custom_net_lib/connection_net_interface.hpp:58-371 | over every run of either end, from its events alone: what was posted and received is what the events brought, and the socket is open if and only if no operation failed, no `Disconnect` ran and, at a server, no wrong answer was read |
| `Connections.PostEffect` | include/custom_net_lib/connection_net_interface.hpp:128-148 | a post appends to the queue, and begins a header write exactly if the queue was empty |
| `Connections.MessageSentEffect` | include/custom_net_lib/connection_net_interface.hpp:235-284 | a completed write goes on with the payload of the front message, or pops it and goes on with the next header, or stops |
| `Connections.InvStep` | include/custom_net_lib/connection_net_interface.hpp:58-371 | every step of either end, whatever the peer sends, keeps the invariant: no second read, no second chain, no pop of an empty queue |
| `Connections.InvRun` | include/custom_net_lib/connection_net_interface.hpp:58-371 | the invariant holds in every reachable state |
| `Connections.HandshakeGate` | include/custom_net_lib/connection_net_interface.hpp:337-371 | over every run against any peer `onClientValidated` fires at most once, exactly if the first eight bytes received are the puzzle of the server's own challenge, before that nothing is queued, and what is queued is the parse of the bytes after them |
| `Connections.OneChain` | include/custom_net_lib/connection_net_interface.hpp:128-148 | over every run of either end: no fault, and on an open connection a write is in flight if and only if messages are queued, of the front message |
| `Connections.FrontUntouched` | include/custom_net_lib/connection_net_interface.hpp:230-285 | while a write is in flight only its own completion changes the front of the queue |
| `Connections.Connection.constructor` | include/custom_net_lib/connection_net_interface.hpp:28-51 | a new object is the fresh state of its owner kind |
| `Connections.Connection.StartUp` | include/custom_net_lib/connection_net_interface.hpp:58-111 | `ConnectToClient`, or the connect handler of a client, is the step `Start` |
| `Connections.Connection.SendData` | include/custom_net_lib/connection_net_interface.hpp:128-148 | the posted lambda is the step `Post` on the whole state |
| `Connections.Connection.OnMessageWritten` | include/custom_net_lib/connection_net_interface.hpp:235-284 | the two write handlers are the step `MessageSent`, in all branches |
| `Connections.Connection.OnValidationSent` | include/custom_net_lib/connection_net_interface.hpp:322-334 | the handshake write handler is the step `ValidationSent` |
| `Connections.Connection.OnServerRequestRead` | include/custom_net_lib/connection_net_interface.hpp:305-314 | the client's handshake read handler is the completing step `Receive` |
| `Connections.Connection.OnAnswerRead` | include/custom_net_lib/connection_net_interface.hpp:344-370 | the server's handshake read handler is the completing step `Receive` |
| `Connections.Connection.OnHeaderRead` | include/custom_net_lib/connection_net_interface.hpp:180-208 | the header handler is the specification `HeaderRead` on the reader |
| `Connections.Connection.AddToIncomingMsgQueue` | include/custom_net_lib/connection_net_interface.hpp:150-168 | queues the reused message and goes back to reading a header |
| `Connections.Connection.TakePiece` | include/custom_net_lib/connection_net_interface.hpp:170-228 | a piece for the outstanding read is the specification `Feed` on it |
| `Connections.Connection.TakeBytes` | include/custom_net_lib/connection_net_interface.hpp:170-228 | the chain of composed reads over a stretch of the stream is the specification `Feed` |
| `Connections.Connection.OnMessageBytes` | include/custom_net_lib/connection_net_interface.hpp:170-228 | message bytes are the step `Receive` on the whole state |
| `Connections.Connection.OnValidationBytes` | include/custom_net_lib/connection_net_interface.hpp:298-304 | a part of the handshake word is the step `Receive` |
| `Connections.Connection.TransmitValidation` | include/custom_net_lib/connection_net_interface.hpp:317-321 | handshake bytes leaving, from an open socket, are the step `SendValidation` |
| `Connections.Connection.TransmitMessage` | include/custom_net_lib/connection_net_interface.hpp:230-267 | message bytes leaving, from an open socket, are the step `SendMessage` |
| `Connections.Connection.OnDisconnect` | include/custom_net_lib/connection_net_interface.hpp:115-121 | the posted close is the step `Disconnect` |
| `Connections.Connection.OnReadFailed` | include/custom_net_lib/connection_net_interface.hpp:201-208 | a failing read closes the socket and leaves no read outstanding |
| `EndToEnd.RestAfterSend` | include/custom_net_lib/connection_net_interface.hpp:230-267 | bytes that leave are exactly what is taken off the bytes still to be sent |
| `EndToEnd.RestAfterPost` | include/custom_net_lib/connection_net_interface.hpp:128-148 | a post to a running chain adds the message's wire form to the bytes still to be sent |
| `EndToEnd.RestOfOthers` | include/custom_net_lib/connection_net_interface.hpp:235-284 | when the header or payload is out, what is still to be sent is the payload or the other messages |
| `EndToEnd.PostStream` | include/custom_net_lib/connection_net_interface.hpp:128-148 | a post at any time keeps: message bytes sent followed by those still to be sent = the wire form of all posted messages |
| `EndToEnd.PostSent` | include/custom_net_lib/connection_net_interface.hpp:128-148 | a well-formed post at any time, before, during or after the handshake, keeps the order handshake word, then posted messages |
| `EndToEnd.SendMessageSent` | include/custom_net_lib/connection_net_interface.hpp:230-267 | message bytes that leave after the handshake word keep it |
| `EndToEnd.MessageSentSent` | include/custom_net_lib/connection_net_interface.hpp:235-284 | completing header or payload writes keeps it |
| `EndToEnd.SendValidationSent` | include/custom_net_lib/connection_net_interface.hpp:317-321 | bytes of the handshake word leaving keep it |
| `EndToEnd.ReceiveSent` | include/custom_net_lib/connection_net_interface.hpp:298-371 | arriving bytes keep it; a client's own word begins only after the challenge is complete |
| `EndToEnd.SentStep` | include/custom_net_lib/connection_net_interface.hpp:58-371 | every step of a gated end keeps it, and what was sent only grows |
| `EndToEnd.NetInvStep` | include/custom_net_lib/connection_net_interface.hpp:58-371 | every step of either of two connected ends keeps both ends' invariants and both pipes FIFO |
| `EndToEnd.NetInvRun` | include/custom_net_lib/connection_net_interface.hpp:58-371 | so does every gated run |
| `EndToEnd.Delivered` | include/custom_net_lib/connection_net_interface.hpp:150-285 | an end that has received a prefix of what a gated peer sent has queued a prefix of the messages posted there, and all of them once everything was sent and received |
| `EndToEnd.DeliveryInOrder` | include/custom_net_lib/connection_net_interface.hpp:128-285 | over every run in which message bytes leave after the handshake word, posts at any time, both directions: messages queued at one end are in order a prefix of those posted at the other, and all of them once queue and pipe are empty |
| `EndToEnd.WordArrives` | include/custom_net_lib/connection_net_interface.hpp:298-371 | the first eight bytes received are the peer's handshake word |
| `EndToEnd.HandshakePasses` | include/custom_net_lib/connection_net_interface.hpp:298-371 | for every challenge and every such run the server that has read the answer has validated the client, and the client answered with the puzzle of the challenge |
| `EndToEnd.HandshakeCompletes` | include/custom_net_lib/connection_net_interface.hpp:298-371 | for every challenge some such run leaves the server validated, both handshake writes complete and both ends reading messages |
| `PostTiming.IntrudeLeads` | include/custom_net_lib/connection_net_interface.hpp:128-148 | an open end with nothing queued that has not sent its whole word can be made to send any continuation of it by one post |
| `PostTiming.AnswerOutSafe` | include/custom_net_lib/connection_net_interface.hpp:337-371 | once all eight bytes of the client's answer have left, no continuation at all ends with the server rejecting the client |
| `PostTiming.SafeWordStep` | include/custom_net_lib/connection_net_interface.hpp:115-371 | no step of an end, premise or not, puts other bytes in place of a handshake word once all bytes of it that can still be displaced are equal to those that could displace them, or the end is closed |
| `PostTiming.AnswerIsSafe` | include/custom_net_lib/connection_net_interface.hpp:298-371 | from a state reached under the premise whose client is closed, or has sent its answer, or whose unsent answer and first header cannot be told apart, no continuation at all ends in rejection |
| `PostTiming.ClientPostExact` | include/custom_net_lib/connection_net_interface.hpp:128-148 | in every state reached under the premise with nothing queued at the client and the open server waiting for the answer, a post at the client can lead to rejection if and only if the client is open and not all eight bytes of the answer have left |
| `PostTiming.ChallengeOutSafe` | include/custom_net_lib/connection_net_interface.hpp:298-314 | once all eight bytes of the challenge have left, no continuation at all makes the client take another word |
| `PostTiming.ChallengeIsSafe` | include/custom_net_lib/connection_net_interface.hpp:298-314 | the same for a server that is closed or whose unsent challenge and first header cannot be told apart |
| `PostTiming.ServerPostExact` | include/custom_net_lib/connection_net_interface.hpp:128-148 | in every such state with nothing queued at the server and the open client waiting, a post at the server can make the client take a wrong challenge if and only if the server is open and not all eight bytes of it have left |
| `PostTiming.SevenOutSafe` | include/custom_net_lib/connection_net_interface.hpp:288-371 | once seven bytes of the challenge have left, or the server was closed, no continuation in which the client keeps the premise ends in rejection |
| `PostTiming.ServerPostRejectsExact` | include/custom_net_lib/connection_net_interface.hpp:128-148 | a post at the server can lead to rejection of a client that keeps the premise, both waiting, if and only if both are open and fewer than seven bytes of the challenge have left |
| `PostTiming.ReachMidWord` | include/custom_net_lib/connection_net_interface.hpp:87-111 | for every challenge and every number of its bytes a state with just these sent, both ends waiting, is reached under the premise |
| `PostTiming.UngatedPostBreaksHandshake` | include/custom_net_lib/connection_net_interface.hpp:128-148 | for every challenge some run in which a client's message leaves too early ends with the server having closed on it |
| `Interleaving.WrongOrder` | include/custom_net_lib/connection_net_interface.hpp:230-235 | if a byte of the word still to come differs from a byte of the header that can come to stand in the word, some number of word bytes followed by the header makes a wrong word |
| `Interleaving.MixUpLeads` | include/custom_net_lib/connection_net_interface.hpp:317-321 | an open end with both writes in flight can be led to send any such mixture |
| `Interleaving.ClientOrderExact` | include/custom_net_lib/connection_net_interface.hpp:230-235 | in every state reached under the premise with a client whose answer and first message are both being written and an open waiting server, some order of their bytes gets the client rejected if and only if the client is open and such bytes differ |
| `Interleaving.ServerOrderExact` | include/custom_net_lib/connection_net_interface.hpp:230-235 | the same at the server: some order misleads the open waiting client if and only if the server is open and bytes of challenge and first header differ |
| `Interleaving.ReachBothInFlight` | include/custom_net_lib/net_server.hpp:77-94 | for every challenge, every well-formed message posted first and every number of challenge bytes sent such a state is reached |
| `BeforeHandshake.PhasesReached` | include/custom_net_lib/connection_net_interface.hpp:87-111 | in every state reached under the premise an open end has not begun its word, is sending it, or has sent it |
| `BeforeHandshake.WaitsStep` | include/custom_net_lib/connection_net_interface.hpp:128-335 | an end that is writing a message before its word has begun sends nothing but the bytes of the word, through the step that begins it too, if no byte of the word differs from any of the header that could take its place |
| `BeforeHandshake.EarlyClientExact` | include/custom_net_lib/connection_net_interface.hpp:58-83 | an open client that has messages queued and was not challenged yet can be rejected if and only if some byte of the answer differs from some byte of the first header |
| `BeforeHandshake.EarlyServerExact` | include/custom_net_lib/connection_net_interface.hpp:87-111 | an open server that has messages queued and has not begun its challenge can mislead the client if and only if some byte of the challenge differs from some byte of the first header |
| `BeforeHandshake.ClientQueueExact` | include/custom_net_lib/connection_net_interface.hpp:128-148 | in every state reached under the premise with messages queued at the client, at any time, and the open server waiting, some order of the bytes of its two writes gets it rejected if and only if it is open and bytes of answer and first header that can compete for a place differ |
| `BeforeHandshake.ServerQueueExact` | include/custom_net_lib/connection_net_interface.hpp:128-148 | the same at the server for the open client that waits for the challenge |
| `BeforeHandshake.AcceptMessageExact` | src/custom_server.cpp:24-31 | the message the repository's server posts before its challenge (kind 0, no payload) can mislead a client if and only if some byte of the challenge other than 0 has not left |
| `Draining.FinishOperation` | include/custom_net_lib/connection_net_interface.hpp:230-285 | on an open connection with messages queued the write in flight can be finished, which brings the payload or the next message |
| `Draining.DrainQueue` | include/custom_net_lib/connection_net_interface.hpp:230-285 | some continuation writes out the whole queue of an end and changes nothing else |
| `Draining.DrainPipe` | include/custom_net_lib/connection_net_interface.hpp:170-228 | some continuation reads out everything the peer has sent and changes nothing else |
| `Draining.AllCanBeDelivered` | include/custom_net_lib/connection_net_interface.hpp:128-285 | from every reachable state with both ends open and the handshake over some continuation, with nothing new posted, delivers every message posted so far in both directions |
| `SharedInbox.MoreFrom` | include/custom_net_lib/connection_net_interface.hpp:150-163 | what a connection pushes into the shared queue extends its own messages there and nobody else's |
| `SharedInbox.HandleKeeps` | include/custom_net_lib/net_server.hpp:197-200 | popping a message and handling it loses, adds and reorders nothing |
| `SharedInbox.HubRun` | include/custom_net_lib/net_server.hpp:62-203 | over every run of a server with any number of clients, the handled and queued messages of each connection are exactly what it has received; the premise is only needed of the connection asked about |
| `SharedInbox.OnMessageInOrder` | include/custom_net_lib/net_server.hpp:179-203 | over every such run `onMessage` sees each client's messages in the order that client posted them, whatever the other clients do, and all of them once its queue, its pipe and the shared queue are empty |
| `SharedInbox.RunFollowsEvents` | include/custom_net_lib/net_server.hpp:62-203 | over every run connection i is exactly where its own events bring it from its own challenge, whatever happens on the others; and as many messages were handled as `update` has popped |
| `SharedInbox.InboxOnlyGrows` | include/custom_net_lib/net_server.hpp:197-200 | what has come into the shared queue stays in its place, handled or not: the queue is first in, first out across all connections |
| `ServerTable.ResetAndErase` | include/custom_net_lib/net_server.hpp:153-176 | resetting the unconnected entries and erasing nulls leaves exactly the connected entries |
| `ServerTable.LiveCounts` | include/custom_net_lib/net_server.hpp:153-176 | every connected entry is kept as often as it was there, all others are gone |
| `ServerTable.LiveKeepsOrder` | include/custom_net_lib/net_server.hpp:153-176 | the kept entries are in their original order |
| `ServerTable.LiveDistinct` | include/custom_net_lib/net_server.hpp:153-176 | a table without repetitions stays so, and an entry is kept if and only if it was there and is connected |
| `ServerTable.CallCounts` | include/custom_net_lib/net_server.hpp:153-166 | how often a broadcast sends to each entry and reports each entry, for any table |
| `ServerTable.BroadcastExact` | include/custom_net_lib/net_server.hpp:144-177 | each connected entry but the ignored one gets exactly one `SendData`, each unconnected one exactly one `onClientDisconnect` and is removed, the connected ones remain |
| `ServerTable.OneCallEach` | include/custom_net_lib/net_server.hpp:153-157 | a broadcast over a table without repetitions calls `SendData` once for an entry that is connected and not ignored, and never for another |
| `ServerTable.BroadcastKeeps` | include/custom_net_lib/net_server.hpp:144-177 | a broadcast keeps: no nulls, no repetitions, only accepted entries, exact report counts |
| `ServerTable.AcceptKeeps` | include/custom_net_lib/net_server.hpp:77-100 | so does an accept, allowed or denied |
| `ServerTable.SendToKeeps` | include/custom_net_lib/net_server.hpp:118-142 | so does a send to one client, connected, dead or null |
| `ServerTable.StepKeeps` | include/custom_net_lib/net_server.hpp:63-177 | so does every server step |
| `ServerTable.RunKeeps` | include/custom_net_lib/net_server.hpp:63-177 | so does every run |
| `ServerTable.TableRun` | include/custom_net_lib/net_server.hpp:63-177 | over every run: no nulls or repetitions in the table, a null reported only for each null passed to `sendMessageToClient`, and each connection reported once per send to it while dead plus once if a broadcast dropped it |
| `ServerTable.RunFollowsEvents` | include/custom_net_lib/net_server.hpp:63-177 | over every run, from its events alone: accepted are exactly the connections the application allowed, in order; in the table are, in order, those of them that no broadcast has found closed; numbered are exactly those allowed while open; each was sent exactly what was sent to it alone while it was open and every broadcast for which it was in the table, open and not ignored; and the sends to null or unconnected pointers are counted |
| `ServerTable.DeniedStaysOut` | include/custom_net_lib/net_server.hpp:77-100 | over every run a connection the application denies is never in the table and never numbered |
| `ServerTable.DeadStaysUntilBroadcast` | include/custom_net_lib/net_server.hpp:134-140 | any number of `sendMessageToClient` calls leave the dead connection in the table, each reports it again, and the next broadcast removes it |
| `ServerTable.NumberKeeps` | include/custom_net_lib/net_server.hpp:94 | an accept keeps: counter = start + number accepted, identifiers of connections open at accept in that order, 0 for all others |
| `ServerTable.IdsOverRuns` | include/custom_net_lib/net_server.hpp:85-96 | over every run accepted connection number k, if open then, has the counter's start + k modulo 2^32 as identifier, every other one 0, and the assigned ones are pairwise different while at most 2^32 were accepted |
| `ServerTable.IdsDistinctExact` | include/custom_net_lib/net_server.hpp:94 | the identifiers assigned are pairwise different in every run with at most n accepted connections if and only if n is at most 2^32, whatever the counter started from |
| `ServerTable.Server.constructor` | include/custom_net_lib/net_server.hpp:255-267 | a new server has an empty table and an arbitrary counter |
| `ServerTable.Server.Accept` | include/custom_net_lib/net_server.hpp:68-100 | the accept handler makes a new connection and is the step `Accept` on the whole table, identifiers and counter included |
| `ServerTable.Server.Admit` | include/custom_net_lib/net_server.hpp:85-94 | the connection is appended and the counter moves on, modulo 2^32 |
| `ServerTable.Server.ConnectToClient` | include/custom_net_lib/connection_net_interface.hpp:87-111 | the connection takes the identifier only if its socket is open; no other connection changes |
| `ServerTable.Server.OnSocketClosed` | include/custom_net_lib/connection_net_interface.hpp:201-208 | a handler that closes a socket is the step `SocketClosed` |
| `ServerTable.Server.SendMessageToClient` | include/custom_net_lib/net_server.hpp:118-142 | the step `SendTo` on the whole table, which it never changes |
| `ServerTable.Server.ReportDisconnected` | include/custom_net_lib/net_server.hpp:126-141 | one report, and exactly the nulls are erased |
| `ServerTable.Server.EraseNulls` | include/custom_net_lib/net_server.hpp:137-140 | the erase-remove loop removes exactly the nulls |
| `ServerTable.Server.Sweep` | include/custom_net_lib/net_server.hpp:151-166 | the loop resets exactly the unconnected entries, makes exactly the specified calls in order, and its flag is off only if there is no null |
| `ServerTable.Server.SweepAndErase` | include/custom_net_lib/net_server.hpp:151-176 | loop and erase leave exactly the connected entries |
| `ServerTable.Server.SendMessageToAllClients` | include/custom_net_lib/net_server.hpp:144-177 | the whole broadcast is the step `SendToAll` on the whole table |
| `Broadcasts.EntryPosted` | include/custom_net_lib/connection_net_interface.hpp:128-129 | a message posted for exactly the connections it is meant for keeps: posted and waiting tasks of each connection = what was meant for it, in order |
| `Broadcasts.ToAllKeeps` | include/custom_net_lib/net_server.hpp:144-177 | a broadcast keeps that, with table and open connections in step |
| `Broadcasts.ToOneKeeps` | include/custom_net_lib/net_server.hpp:118-142 | so does a send to one client, connected, dead or null |
| `Broadcasts.AcceptKeeps` | include/custom_net_lib/net_server.hpp:63-105 | so does a new connection, allowed or denied, for which nothing was meant before |
| `Broadcasts.RunTaskKeeps` | include/custom_net_lib/connection_net_interface.hpp:129-146 | so does a posted task that runs |
| `Broadcasts.OnConnectionKeeps` | include/custom_net_lib/connection_net_interface.hpp:58-371 | so does anything else that happens on a connection, its closing included |
| `Broadcasts.CastInvRun` | include/custom_net_lib/net_server.hpp:63-177 | so does every run |
| `Broadcasts.ClientFollowsLog` | include/custom_net_lib/net_server.hpp:118-177 | over every run of a server with any number of clients client i receives, in order and once each, a prefix of the messages meant for it - sends to it and broadcasts at whose time it was in the table, open and not ignored -, and all of them once nothing is left to post, send or read; the premise is only needed of connection i |
| `Broadcasts.BroadcastsInOneOrder` | include/custom_net_lib/net_server.hpp:144-177 | over every such run any two clients receive two broadcasts meant for both in the same order, at the places the log of sends gives them, whatever the other clients do |
| `Broadcasts.RunFollowsEvents` | include/custom_net_lib/net_server.hpp:63-177 | over every run, from its events alone: the log holds exactly the messages given to the server to send, in order, and every connection is exactly where its own events and the tasks posted for it, in the order of the log, bring it from its own challenge |
| `Broadcasts.EntryExact` | include/custom_net_lib/net_server.hpp:118-177 | over every run: a message given to send is meant for exactly the connections that were open then and, for a broadcast, in the table and not ignored |
| `Broadcasts.TableOfRun` | include/custom_net_lib/net_server.hpp:63-177 | the table of the composed server is that of a run of the table alone, so that every result about the table holds for it |
| `Broadcasts.EverythingCanArrive` | include/custom_net_lib/net_server.hpp:118-177 | from every such state with connection i open at both ends, its handshake over and the messages still to be posted there well-formed, some continuation, with nothing new sent, brings client i everything that was ever meant for it |
| `TsQueues.InvGo` | include/custom_net_lib/net_ts_queue.hpp:61-113 | an operation of the single consumer keeps the queue's invariant |
| `TsQueues.PopKeeps` | include/custom_net_lib/net_ts_queue.hpp:79-86 | a pop moves the front of the queue to the end of what was handled |
| `TsQueues.InvStep` | include/custom_net_lib/net_ts_queue.hpp:38-113 | so does every atomic operation of any thread |
| `TsQueues.InvRun` | include/custom_net_lib/net_ts_queue.hpp:38-113 | so does every interleaving |
| `TsQueues.SingleConsumer` | include/custom_net_lib/net_server.hpp:192-202 | one consumer, any pushers, any interleaving: no pop of an empty queue, nothing lost or made up, FIFO without `pushFront`, and one update handles at most its bound |
| `TsQueues.WaitingUpdateHandles` | include/custom_net_lib/net_server.hpp:190-203 | over every run with one consumer, an update called with waiting enabled and a positive bound never returns without having handled a message |
| `TsQueues.RunFollowsEvents` | include/custom_net_lib/net_ts_queue.hpp:38-59 | over every run with any number of consumers, from its events alone: what was pushed is what the push events pushed, in order; each consumer runs with the bound and flag of its last `update`, and is in `wait` only if that flag was set |
| `TsQueues.ReturnsExact` | include/custom_net_lib/net_server.hpp:192-202 | `update` returns exactly when it tests its loop condition with its bound reached or the queue empty |
| `TsQueues.WaitsExact` | include/custom_net_lib/net_ts_queue.hpp:95-113 | `wait` lets its consumer pass exactly if it finds the queue non-empty, blocks it otherwise, and a blocked one looks again only after it was woken |
| `TsQueues.PushFrontIsNext` | include/custom_net_lib/net_ts_queue.hpp:51-59 | what is pushed to the front is what the next pop of any consumer returns |
| `TsQueues.RankStep` | include/custom_net_lib/net_server.hpp:196-202 | only the consumer's own operations bring `update` nearer its end, and each does |
| `TsQueues.UpdateEnds` | include/custom_net_lib/net_server.hpp:196-202 | `update` returns within 2 (max - handled) + 1 of its own operations, however fast others push |
| `TsQueues.SafeExactlyWithOneConsumer` | include/custom_net_lib/net_server.hpp:197-198 | testing and popping in two operations never meets an empty queue in any run if and only if there is one consumer |
| `TsQueues.TsNetQueue.constructor` | include/custom_net_lib/net_ts_queue.hpp:18 | a new queue is empty |
| `TsQueues.TsNetQueue.PushBack` | include/custom_net_lib/net_ts_queue.hpp:38-50 | the element is appended |
| `TsQueues.TsNetQueue.PushFront` | include/custom_net_lib/net_ts_queue.hpp:51-59 | the element is prepended |
| `TsQueues.TsNetQueue.IsEmpty` | include/custom_net_lib/net_ts_queue.hpp:61-64 | true exactly for an empty queue |
| `TsQueues.TsNetQueue.PopFront` | include/custom_net_lib/net_ts_queue.hpp:79-86 | returns and removes the front |
| `TsQueues.TsNetQueue.PushAllBack` | include/custom_net_lib/net_ts_queue.hpp:38-50 | a series of pushes of other threads appends them in order |
| `TsQueues.Update` | include/custom_net_lib/net_server.hpp:196-202 | whatever others push to the back between its operations, the loop handles, in order, a prefix of everything queued, at most its bound, and fewer only if it found the queue empty |
| `Chat.EnqueueKeeps` | other_ressources/async_io_with_cpp/simple_tcp_chat_server.cpp:34-42 | posting to a client extends its stream by the broadcast and keeps one write in flight |
| `Chat.LeftKeeps` | other_ressources/async_io_with_cpp/simple_tcp_chat_server.cpp:138-142 | a session that left is not touched by later broadcasts |
| `Chat.LeavingKeeps` | other_ressources/async_io_with_cpp/simple_tcp_chat_server.cpp:123-127 | a session that leaves keeps its piece of the log, which ends just before its notice |
| `Chat.PostKeeps` | other_ressources/async_io_with_cpp/simple_tcp_chat_server.cpp:138-142 | a broadcast keeps every session in order |
| `Chat.AcceptKeeps` | other_ressources/async_io_with_cpp/simple_tcp_chat_server.cpp:105-136 | an accept keeps the invariant: the newcomer's piece begins just after its notice |
| `Chat.NoticesLeave` | other_ressources/async_io_with_cpp/simple_tcp_chat_server.cpp:123-127 | a session that leaves takes the new notice, and no other session has it |
| `Chat.ErrorKeeps` | other_ressources/async_io_with_cpp/simple_tcp_chat_server.cpp:121-129 | the on-error lambda keeps the invariant, called first or again |
| `Chat.WrittenKeeps` | other_ressources/async_io_with_cpp/simple_tcp_chat_server.cpp:73-80 | a completed write moves one message from queue to written and starts the next |
| `Chat.InvStep` | other_ressources/async_io_with_cpp/simple_tcp_chat_server.cpp:34-142 | every event keeps the invariant |
| `Chat.InvRun` | other_ressources/async_io_with_cpp/simple_tcp_chat_server.cpp:34-142 | so does every run |
| `Chat.StreamsAreLogPieces` | other_ressources/async_io_with_cpp/simple_tcp_chat_server.cpp:105-142 | over every run, written messages followed by queued ones are the welcome, then the global log from just after the session's own newcomer notice up to just before its leave notice, which no other session has |
| `Chat.DepartureNotices` | other_ressources/async_io_with_cpp/simple_tcp_chat_server.cpp:121-129 | over every run a place of the log is a departure notice if and only if some session left there, and then exactly one did |
| `Chat.ClientsAgree` | other_ressources/async_io_with_cpp/simple_tcp_chat_server.cpp:138-142 | any two sessions hold every broadcast meant for both, in log order |
| `Chat.DeparturesOnce` | other_ressources/async_io_with_cpp/simple_tcp_chat_server.cpp:121-129 | over every run clients = newcomer notices - departure notices, a client has a write in flight if and only if its queue is non-empty, and no session has two writes or pops an empty queue |
| `Chat.LeftForGood` | other_ressources/async_io_with_cpp/simple_tcp_chat_server.cpp:121-129 | a session that left never comes back, and its place of leaving never changes, though both handlers may fail later |
| `Chat.RunFollowsEvents` | other_ressources/async_io_with_cpp/simple_tcp_chat_server.cpp:51-142 | over every run, from its events alone: the log holds, in order, a newcomer notice for every accept, every line that was read and a departure notice for the first failure of every session, and nothing else; a session is a client and open exactly while nothing of it has failed, reads exactly while no read of it has failed, has a write in flight exactly while something is queued and no write of it has failed, and has written as many messages as writes completed |
| `Chat.LineReachesClients` | other_ressources/async_io_with_cpp/simple_tcp_chat_server.cpp:51-58 | over every run every line that was read stands, at its place in the log, in the stream of every session that had been accepted and had not failed by then, the sender included, whatever happens later |
| `Chat.DrainSession` | other_ressources/async_io_with_cpp/simple_tcp_chat_server.cpp:73-80 | as many write completions as are queued write out exactly the welcome and the client's piece of the log |
| `Chat.ClientSession.constructor` | other_ressources/async_io_with_cpp/simple_tcp_chat_server.cpp:23-26 | a new session has an empty queue and nothing outstanding |
| `Chat.ClientSession.PostNote` | other_ressources/async_io_with_cpp/simple_tcp_chat_server.cpp:34-42 | `Session::post` is the specification `Enqueue` |
| `Chat.ClientSession.OnWritten` | other_ressources/async_io_with_cpp/simple_tcp_chat_server.cpp:73-80 | the successful `on_write` is the specification `Written` |
| `Chat.ChatServer.constructor` | other_ressources/async_io_with_cpp/simple_tcp_chat_server.cpp:101-103 | a new server is the empty state |
| `Chat.ChatServer.PostToAll` | other_ressources/async_io_with_cpp/simple_tcp_chat_server.cpp:138-142 | `post` is the specification `Post` on the whole state |
| `Chat.ChatServer.Deliver` | other_ressources/async_io_with_cpp/simple_tcp_chat_server.cpp:138-142 | the loop over the set, in whatever order, enqueues the message once for every client and for nobody else |
| `Chat.ChatServer.AcceptClient` | other_ressources/async_io_with_cpp/simple_tcp_chat_server.cpp:105-136 | the accept handler is the step `Accept` on the whole state |
| `Chat.ChatServer.Welcomed` | other_ressources/async_io_with_cpp/simple_tcp_chat_server.cpp:110-114 | a new session with the welcome queued |
| `Chat.ChatServer.Insert` | other_ressources/async_io_with_cpp/simple_tcp_chat_server.cpp:118-129 | the session becomes a client after the notice went to the others |
| `Chat.ChatServer.OnLine` | other_ressources/async_io_with_cpp/simple_tcp_chat_server.cpp:51-58 | a line read is the step `ReadOk` |
| `Chat.ChatServer.OnErrorOf` | other_ressources/async_io_with_cpp/simple_tcp_chat_server.cpp:121-129 | the on-error lambda is the specification `OnError`: erase and notice only for a member |
| `Chat.ChatServer.OnReadError` | other_ressources/async_io_with_cpp/simple_tcp_chat_server.cpp:59-64 | a failed read is the step `ReadFailed` |
| `Chat.ChatServer.OnWriteError` | other_ressources/async_io_with_cpp/simple_tcp_chat_server.cpp:82-86 | a failed write is the step `WriteFailed` |
| `Chat.ChatServer.OnWriteDone` | other_ressources/async_io_with_cpp/simple_tcp_chat_server.cpp:73-80 | a completed write is the step `WriteOk` |

## Left out

- `CircularBufferView` and `make_view`: they only forward to the buffer.
- The echo session of tcp_echo_server_efficient_data_read_write.cpp: the same buffer and session on one `io_context`.
- Accepting in the echo servers (the acceptor is not re-armed there), and construction and running of `IoContextGroup` and its threads.
- Sockets, resolvers, threads, `io_context` and work guards, timers, console output: replaced by steps that may happen in any order.
- Data races between the application thread and the I/O thread on `connectionsQueue_`: server steps are atomic, a whole broadcast included.
- Lost wake-ups in `TsNetQueue::wait`, which tests for emptiness before it takes the condition's mutex: a blocked consumer may stay blocked in the model, and nothing is claimed about it.
- `TsNetQueue::front`, `back`, `popBack`, `count`, `clear`: accessors that would add only easy members.
- SharedInbox.OnMessageInOrder: the shared queue is a value; the class `Connections.Connection` keeps its own list of received messages, and messages are handled one `pop` at a time without the bound of `update`, which `TsQueues` models.
- The owner pointer in `OwnedMessage` and the printing operators of messages.
- Lifetimes: raw `this` in the handlers of connections, shared and weak pointers of sessions.
- The text of chat lines: the stream buffer, the line delimiter and the sender's address in front of each line. A broadcast of a line is modelled by the session and an arbitrary text.
- The error code of the chat server's accept handler, which the code ignores.
- TsQueues.Update: the arrivals of other threads are a function from operation numbers to what is pushed before them; `pushFront` by other threads during an update is covered by `TsQueues.SingleConsumer` only.
- EchoSessions.DrainSendsAll: that the drain can happen, not that a fair scheduler makes it happen; likewise `Chat.DrainSession`, `Draining.AllCanBeDelivered` and `Broadcasts.EverythingCanArrive`.
- BeforeHandshake.ServerQueueExact: says when the client is misled, not when its honest answer to a wrong challenge is then rejected; for a server with nothing queued `PostTiming.ServerPostRejectsExact` says that too.
- Broadcasts.BroadcastsInOneOrder: a denied connection is kept out of the table, but what happens on it is not restricted further.
- Reconnecting after a failure: a connection that was closed stays closed.
- Strength of the handshake puzzle, certificates, TLS.
- The client and server programs under `src`, the terminal server, the decoupled echo server with two stream buffers, and the Beast and Boost tutorials: command line, keyboard and thin uses of libraries.
