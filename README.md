# Read path of a rest_rpc server connection

This project models the per-connection read state machine of the rest_rpc server
(`rest_rpc/server/connection_impl.hpp`) and proves properties of it in Dafny.

A connection owns a socket, a receive buffer, the header of the last frame, and an idle timer.
After `start` it reads frames in a loop. Each frame is a fixed header whose `len` field gives
the body length, followed by the body. A header with `len == 0` is a keep-alive: the next
header read is issued at once. A header with `len > MAX_BUF_LEN` aborts the connection. Any
other header resizes the buffer to `len` when `len` exceeds `PAGE_SIZE`, and issues the body read. A body
read that completes runs the read callback and then loops. A read that fails closes the socket
and runs the error callback. The callbacks sit in two process-wide slots.

The model has three layers:

- `ConnectionSpec` (connection_spec.dfy): the connection's state as a value (`State`). Each
  member function of the C++ class is a function from one `State` to the next. Their
  `ensures` clauses say what each step promises. `Inv` is the invariant that every reachable
  state keeps.
- `ConnectionTraces` (connection_traces.dfy): runs of a connection over any sequence of events.
  The events are start, close, completion of the outstanding read, and re-registration of a
  callback. Lemmas prove by induction what holds over all runs.
- `Server` (server.dfy): the imperative model. `Connection` is a class whose fields the
  handlers update in place. Each method is proved to take exactly the matching
  `ConnectionSpec` step on `Snapshot()`. Every method that changes the connection also requires
  and keeps `Valid()`. `ReadBody` also requires a positive header length, and `OnError` an open
  socket: these are the only states in which `handle_read_head` and `handle_read_body` call them.
  `CallbackSlots` stands for the function-local statics behind `get_on_read` and `get_on_error`.
  The constructor is given the slots object. Passing every connection the same object is the
  caller's job, and connections given the same object share it (`SharedSlots`). Three client
  methods drive connections through whole frames.

An asynchronous completion is an ordinary method call. Its outcome is given as parameters:
`error`, and the header's `len` or the bytes `received`. A handler is only called for the read
that was issued (`pending`), and it first marks that read as no longer outstanding.
`ReadHead` and `ReadBody` require that no read is outstanding. So the verifier checks, at
every call site, that at most one read is ever pending. The user callbacks are counted, not run.
`readCallbacks` and `errorCallbacks` count their invocations, which happen only when the slot
holds a callback. `errorReports` counts calls of `connection::on_error`. `PAGE_SIZE` and
`MAX_BUF_LEN` are defined elsewhere in the program. Here they are constants with no value and
no assumed relation: no proof needs one.

Some properties one might expect of this read loop do not hold of the code:

- The buffer's size can shrink. `read_body` resizes the buffer to `len` whenever
  `len > PAGE_SIZE` (line 122). So a later frame that is smaller but still above a page
  shrinks it (`BufferFollowsLastLargeFrame`). What does hold is that it never drops below
  `PAGE_SIZE` and always fits the body being read (`Inv`).
- A new connection's socket is closed. `socket_(ios)` (line 7) constructs an unopened
  socket; the acceptor opens it through `socket()`. This is `Accept`.
- An oversized frame closes the socket without calling `on_error` and without cancelling the
  timer (lines 114-118). Likewise, a header completion on a closed socket returns before
  `cancel_timer` (lines 131-132). So the timer can stay armed with no read outstanding.
- The error and read callbacks run only when a callback is registered (`if (on_error)`, line 45;
  `if (on_read)`, line 161).

## Model

| member | source | states |
|---|---|---|
| ConnectionSpec.Init | rest_rpc/server/connection_impl.hpp:5-12 | a new connection has a zero-filled buffer of exactly PAGE_SIZE bytes, a closed socket, no outstanding read, a disarmed timer and no callbacks run, and satisfies the invariant |
| Server.Connection.constructor | rest_rpc/server/connection_impl.hpp:5-12 | the constructed object's state is `Init(timeOut)`, it is valid, and it refers to the shared callback slots |
| ConnectionSpec.Accept | rest_rpc/server/connection_impl.hpp:26-29 | accepting into the socket of a fresh connection opens it, changes nothing else and keeps the invariant |
| Server.Connection.Accept | rest_rpc/server/connection_impl.hpp:26-29 | the object takes the `Accept` step and stays valid |
| ConnectionSpec.Close | rest_rpc/server/connection_impl.hpp:20-24 | afterwards the socket is closed and nothing else changes; closing a closed connection changes nothing at all |
| Server.Connection.Close | rest_rpc/server/connection_impl.hpp:20-24 | the object takes the `Close` step and stays valid |
| Server.Connection.Start | rest_rpc/server/connection_impl.hpp:31-35 | called with no read outstanding, start takes the `ReadHead` step: the header read becomes the only outstanding read, under the timer |
| ConnectionSpec.OnError | rest_rpc/server/connection_impl.hpp:37-47 | the socket ends closed, the failure is reported exactly once more, the error callback count rises by one exactly when a callback is registered, and nothing else changes |
| Server.Connection.OnError | rest_rpc/server/connection_impl.hpp:37-47 | called on an open, valid connection, the object takes the `OnError` step with the slots as currently registered and stays valid |
| Server.CallbackSlots.constructor | rest_rpc/server/connection_impl.hpp:59-69 | the process-wide slots start with no callback registered |
| Server.CallbackSlots.SetOnRead | rest_rpc/server/connection_impl.hpp:54-57 | overwrites the shared read slot and leaves the error slot as it was |
| Server.CallbackSlots.SetOnError | rest_rpc/server/connection_impl.hpp:49-52 | overwrites the shared error slot and leaves the read slot as it was |
| ConnectionSpec.ReadBuffer | rest_rpc/server/connection_impl.hpp:71-74 | the view has exactly headLen bytes, and they are the first headLen bytes of the buffer |
| Server.Connection.GetReadBuffer | rest_rpc/server/connection_impl.hpp:71-74 | returns the `ReadBuffer` view of the current state, never the whole buffer |
| Server.Connection.GetReadHeader | rest_rpc/server/connection_impl.hpp:76-79 | returns the length field of the last header read |
| ConnectionSpec.ExpiresTimer | rest_rpc/server/connection_impl.hpp:88-95 | with a zero timeout the state is unchanged; otherwise the timer is armed; nothing else changes |
| Server.Connection.ExpiresTimer | rest_rpc/server/connection_impl.hpp:88-95 | the object takes the `ExpiresTimer` step and stays valid |
| ConnectionSpec.CancelTimer | rest_rpc/server/connection_impl.hpp:97-103 | with a zero timeout the state is unchanged; otherwise the timer is disarmed; nothing else changes |
| Server.Connection.CancelTimer | rest_rpc/server/connection_impl.hpp:97-103 | the object takes the `CancelTimer` step and stays valid |
| ConnectionSpec.ReadHead | rest_rpc/server/connection_impl.hpp:105-110 | requires that no read is outstanding; the header read becomes the one outstanding read, the timer is armed unless the timeout is zero, nothing else changes |
| Server.Connection.ReadHead | rest_rpc/server/connection_impl.hpp:105-110 | the object takes the `ReadHead` step and stays valid |
| ConnectionSpec.Resize | rest_rpc/server/connection_impl.hpp:120-123 | resizing gives exactly n bytes, keeps the bytes the old and new buffers share, and zero-fills the rest |
| ConnectionSpec.ReadBody | rest_rpc/server/connection_impl.hpp:112-127 | a length above MAX_BUF_LEN gives exactly `Close` of the state: no read issued, buffer, timer and counters unchanged; otherwise the body read becomes the one outstanding read, the buffer size becomes len when len > PAGE_SIZE and is unchanged otherwise, its old bytes are kept, and a buffer of at least a page ends at least PAGE_SIZE and at least len bytes long |
| Server.Connection.ReadBody | rest_rpc/server/connection_impl.hpp:112-127 | called with a positive header length and no read outstanding, the object takes the `ReadBody` step and stays valid |
| ConnectionSpec.HandleReadHead | rest_rpc/server/connection_impl.hpp:129-150 | on a closed socket the completion only retires the read; on success with len 0 the next header read is issued under the timer, the buffer and counters are untouched; on success with 0 < len <= MAX_BUF_LEN the body read is issued into a buffer that fits it; on success with len > MAX_BUF_LEN the socket is closed with nothing outstanding, timer and counters untouched; on error on an open socket the timer is disarmed, the socket closed and the failure reported exactly once; the read callback never runs |
| Server.Connection.HandleReadHead | rest_rpc/server/connection_impl.hpp:129-150 | the object takes the `HandleReadHead` step with the registered slots and stays valid |
| ConnectionSpec.BodyCompleted | rest_rpc/server/connection_impl.hpp:152-162 | what the read callback observes: the received bytes at the front of the buffer, the rest of the buffer as it was, the timer disarmed unless the timeout is zero, no read outstanding |
| ConnectionSpec.HandleReadBody | rest_rpc/server/connection_impl.hpp:152-171 | the timer is disarmed even on a closed socket, which otherwise ignores the completion; on success on an open socket the read callback count rises by one when one is registered, the buffer view is exactly the received body, and the next header read is issued with the timer re-armed unless the timeout is zero; on error the socket is closed and the failure reported exactly once |
| Server.Connection.HandleReadBody | rest_rpc/server/connection_impl.hpp:152-171 | the object takes the `HandleReadBody` step with the registered slots and stays valid |
| ConnectionTraces.StepPreservesInv | rest_rpc/server/connection_impl.hpp:105-171 | every enabled event keeps the invariant: buffer at least PAGE_SIZE and at most MAX_BUF_LEN once above a page, an outstanding body read fits the buffer and is within the cap, a zero timeout never arms the timer, at most one failure reported and then the socket is closed |
| ConnectionTraces.RunPreservesInv | rest_rpc/server/connection_impl.hpp:105-171 | the invariant holds after any admissible sequence of events from a state where it holds |
| ConnectionTraces.AtMostOneErrorReport | rest_rpc/server/connection_impl.hpp:37-47 | from an accepted connection, whatever happens, on_error runs at most once, the error callback at most once, and the buffer keeps at least a page |
| ConnectionTraces.ClosedIgnoresCompletions | rest_rpc/server/connection_impl.hpp:129-171 | once closed, the socket stays closed and no read callback, error report or error callback follows, whatever completes or is called afterwards |
| ConnectionTraces.FrameDeliversBody | rest_rpc/server/connection_impl.hpp:112-171 | a header with 0 < n <= MAX_BUF_LEN followed by n body bytes leaves the connection open and awaiting the next header under an armed timer (unless the timeout is zero), runs the read callback once when registered, reports no failure, the buffer view equals the body, and the buffer size is n if n > PAGE_SIZE and unchanged otherwise |
| ConnectionTraces.OversizedFrameAborts | rest_rpc/server/connection_impl.hpp:112-118 | a header with len > MAX_BUF_LEN closes the socket with no read outstanding, leaves buffer and timer as they were, reports no failure, and after it no callback of either kind runs, whatever else happens |
| ConnectionTraces.BufferFollowsLastLargeFrame | rest_rpc/server/connection_impl.hpp:120-123 | after a frame of n bytes and then one of m bytes, PAGE_SIZE < m < n <= MAX_BUF_LEN, the buffer holds n and then m bytes: its size shrinks |
| Server.HelloFrame | rest_rpc/server/connection_impl.hpp:129-171 | header len 5 and body "hello" on a connection with a read callback: the callback's view is exactly "hello", it runs once, the socket stays open |
| ConnectionTraces.ErrorCallbackSeesOverlongHeader | rest_rpc/server/connection_impl.hpp:71-74 | a run from an accepted connection, start and then a failed header read leaving a length above a page, reaches the error callback with headLen larger than the buffer, where a view of headLen bytes would run past its end |
| Server.SharedSlots | rest_rpc/server/connection_impl.hpp:54-69 | two connections given the same slots object both see a read callback registered after they were built, and each runs it once for its own frame |
| Server.OversizedFrame | rest_rpc/server/connection_impl.hpp:112-150 | a header declaring more than MAX_BUF_LEN bytes closes the socket, issues no read, and runs neither callback even with both registered |

## Left out

- The Boost.Asio machinery (`async_read`, `io_service`, `boost::bind`): each completion is a method call or an event of a run, so real concurrency is not modelled. The executor delivers completions one at a time.
- `shared_from_this` and object lifetime: keeping the connection alive across continuations is ownership, not sequential state.
- `set_no_delay` (lines 81-86), which `start` calls first: an operating-system socket option whose error is ignored.
- Timer expiry: the `async_wait` is commented out (line 94), so the timer never fires. Only its armed flag and the zero-timeout rule are modelled, not durations.
- `response` (lines 14-18): it only hands the connection to the write path, which is not part of this model.
- The bodies of the user callbacks: they are counted, and assumed to change no connection state. A callback that closes the connection or re-registers a slot during its call is not modelled.
- The layout of `req_header`, which is defined elsewhere: only its `len` field is modelled, as an unbounded natural. Its width and byte order are not modelled.
- The exception that the throwing `socket_.close()` at line 116 can raise when closing fails: closing always succeeds in the model.
- The buffer's capacity: `buf` models the vector's size, which `resize` sets. The capacity, which never shrinks, is not modelled.
- What a failed or aborted read leaves in the header: `len` is whatever the header holds when the handler runs. A failed body read stores some prefix of the body (`received`).
- ReadBuffer and GetReadBuffer require `headLen <= |buf|`, so they model only calls where that holds, such as from the read callback. `get_read_buffer` (lines 71-74) does not compare `head_.len` with the buffer's size. The error callback, which receives the connection (line 46), can call it with a longer header length (`ErrorCallbackSeesOverlongHeader`). There the view runs past the end of the buffer, which is undefined behaviour and is not modelled.
