# DashboardState and the `/events` stream, in Dafny

This project models the shared state of the trading bot's web dashboard
(`DashboardState` in `dashboard.py`) and the text frames of its Server-Sent
Events endpoint, and proves properties of the model.

- **Rolling log buffer.** `add_log` appends a line and keeps only the 500 most
  recent lines. `get_logs(n)` returns `_log_lines[-n:]`.
- **Subscriber registry with drop-on-full fan-out.** `subscribe` registers a
  new queue of capacity 50. `unsubscribe` removes a queue if it is registered.
  `_send_event` does a non-blocking put of `(event_type, data)` on every
  registered queue; the queues that were full are removed in a second loop.
  `_notify` is `_send_event("state", <json of the state>)`.
- **The event-stream frames** that `_serve_sse` writes: the `init` frame, one
  `event:`/`data:` frame per message taken from the queue, and the
  `:keepalive` comment. Their partner is a model of how a client reads an
  event stream, following section 9.2 ("Server-sent events") of the WHATWG
  HTML Living Standard. The lemmas show which events a client dispatches for
  each frame and for a whole stream.

Each locked section of the source is one atomic step. A queue is an object
(class `EventQueue`), because `in` and `remove` compare queues by identity.
The registry is a `seq<EventQueue>` field. The queue contents are a
`seq<Message>` field.

Files:

| file | module | contents |
|---|---|---|
| `wrappers.dfy` | `Wrappers` | `Option` |
| `seqs.dfy` | `Seqs` | Python slicing, `list.remove`, order-preserving filter, and their lemmas |
| `event_queue.dfy` | `EventQueues` | `Message`; `EventQueue` (`queue.Queue(maxsize)`), with `put_nowait` and a non-blocking `get` |
| `dashboard_state.dfy` | `Dashboard` | class `DashboardState` and the lemmas about the log buffer, the registry and delivery |
| `event_stream.dfy` | `EventStream` | the frames, the client-side reading of a stream, and the lemmas connecting the two |
| `sse_handler.dfy` | `SseHandler` | `_serve_sse` as steps: open, one loop turn, several loop turns, close |

## Model

| member | source | states |
|---|---|---|
| `Seqs.SliceFromNegated` | dashboard.py:82-87 | `s[-n:]` is the last `n` elements for `n >= 1`, the whole list for `n == 0` (because `-0 == 0`), and drops `-n` elements from the front for `n < 0` |
| `Seqs.RemoveFirst` | dashboard.py:127-130 | `list.remove(x)` guarded by `x in list`: one element fewer when `x` is present, the list unchanged otherwise |
| `Seqs.RemoveFirstDistinct` | dashboard.py:127-130 | on a registry without repeats, `remove(q)` is the same as filtering `q` out: every other queue stays, in order |
| `Seqs.WithoutMembers` | dashboard.py:139-145 | filtering out a set keeps exactly the elements outside that set |
| `Seqs.WithoutWithout` | dashboard.py:144-145 | removing one set and then another is the same as removing their union, which is why the `remove` loop can be read as one filter |
| `EventQueues.EventQueue.constructor` | dashboard.py:122 | a new queue is empty, with the given `maxsize` |
| `EventQueues.EventQueue.PutNowait` | dashboard.py:140-143 | `put_nowait` appends the message exactly when the queue was not full (`0 < maxsize <= qsize` is full), and the caller learns whether it was refused (`queue.Full`); a refused put changes nothing |
| `EventQueues.EventQueue.Get` | dashboard.py:609 | `get` returns the front message and removes it (FIFO order); an empty queue gives `None`, where the source times out |
| `Dashboard.DashboardState.constructor` | dashboard.py:71-76 | a new state has an empty log buffer and no subscribers |
| `Dashboard.DashboardState.AddLog` | dashboard.py:78-83 | the buffer becomes the last `min(500, n + 1)` lines of `old + [line]`, where `n` is the old length, it stays within 500 lines, and every registered queue is offered exactly one message `("log", line)`, with the registry updated as by `_send_event` |
| `Dashboard.DashboardState.GetLogs` | dashboard.py:85-87 | for `n >= 1` the result is the `min(n, length)` most recent lines, oldest first; for `n == 0` it is the whole buffer; for `n < 0` it is the buffer without its first `-n` lines |
| `Dashboard.DashboardState.Subscribe` | dashboard.py:121-125 | one new empty queue of capacity 50 joins the end of the registry; existing subscribers, their queues and the log buffer are unchanged |
| `Dashboard.DashboardState.Unsubscribe` | dashboard.py:127-130 | `q` is no longer registered, the registry shrinks by one exactly when `q` was registered, the other subscribers stay in order, and no queue contents change |
| `Dashboard.DashboardState.Notify` | dashboard.py:132-133 | publishes one `("state", json)` message to every subscriber, as `SendEvent` does |
| `Dashboard.DashboardState.SendEvent` | dashboard.py:135-145 | each registered queue that had room gets the message at its back and stays registered; each full queue is left untouched and is dropped; the survivors keep their order; the log buffer is unchanged |
| `Dashboard.DashboardState.OfferToAll` | dashboard.py:139-143 | the first loop: every registered queue is offered the message, and the `dead` list is the full queues, in registry order |
| `Dashboard.DashboardState.DropAll` | dashboard.py:144-145 | the second loop: removing the dead queues one by one leaves the registry filtered by them |
| `Dashboard.RemoveDead` | dashboard.py:144-145 | every dead queue is still registered when its `remove` runs, so `remove` never raises, and each `remove` filters one more queue out |
| `Dashboard.AddLogShape` | dashboard.py:80-82 | after one `add_log` the new line is last, the buffer grows by one until it holds 500 lines, and the lines before the new one are the most recent old lines in their old order |
| `Dashboard.LogKeepsMostRecent` | dashboard.py:78-83 | after any sequence of `add_log` calls the buffer is exactly the last `min(500, total)` lines ever added, in the order they were added, and never more than 500 |
| `Dashboard.UnsubscribeIdempotent` | dashboard.py:127-130 | `unsubscribe` twice is `unsubscribe` once, is a no-op on a queue that is not registered, and leaves the queue unregistered |
| `Dashboard.DeliveriesArePrefix` | dashboard.py:135-145 | while `ms` are published one by one, an undrained subscriber receives them in order, with no gap or duplicate, as long as they fit; it stays registered exactly when all of them fit, and otherwise it is dropped holding the prefix that fitted |
| `Dashboard.FiftyFirstEventDrops` | dashboard.py:140-145 | a new subscriber that never drains holds the first 50 events and is dropped by the 51st |
| `Dashboard.PublishSequence` | dashboard.py:135-145 | a series of `_send_event` calls moves every registered subscriber along `Deliveries` |
| `Dashboard.InterleavingKeepsOrder` | dashboard.py:135-145 | for any interleaving of publications and takes on one subscriber, the messages taken followed by those still queued are exactly the published messages in publish order while it stays registered, and a prefix of them after it is dropped; a dropped subscriber never comes back, nothing taken is undone, and the queue stays within its capacity |
| `EventStream.EventFrame` | dashboard.py:610 | defines the frame for one message as the text `event: <type>\ndata: <data>\n\n` |
| `EventStream.InitFrame` | dashboard.py:602 | defines the first frame as the text `event: init\ndata: <init_data>\n\n` |
| `EventStream.KeepaliveFrame` | dashboard.py:614 | defines the keepalive as the text `:keepalive\n\n` |
| `EventStream.OutputFrame` | dashboard.py:609-615 | defines the text of one loop turn: the message frame of line 610, or the keepalive of line 614 when the wait timed out |
| `EventStream.Transcript` | dashboard.py:607-615 | defines the text of several loop turns as their frames one after another |
| `EventStream.EventFrameDelivers` | dashboard.py:610 | a client reads the frame `event: t\ndata: d\n\n` as exactly the event `(t, d)` when `d` is one line |
| `EventStream.InitFrameParses` | dashboard.py:598-602 | the first frame of a stream is read as the single event `("init", payload)` |
| `EventStream.KeepaliveIgnored` | dashboard.py:612-615 | the `:keepalive` frame dispatches nothing and leaves the client as it was |
| `EventStream.SplitFrameAgrees` | dashboard.py:610 | for a one-line payload, the corrected frame is the same text as the frame the source writes |
| `EventStream.SplitFrameDelivers` | dashboard.py:610 | the corrected frame is read as exactly the message it carries, whatever line feeds the payload contains |
| `EventStream.CorrectedFrameOfOutput` | dashboard.py:609-615 | with the corrected frame, one turn of the stream loop dispatches its message, or nothing for a keepalive |
| `EventStream.CorrectedTranscriptDelivers` | dashboard.py:607-615 | with the corrected frame, the frames of any number of loop turns dispatch the messages taken from the queue, in order, and nothing else |
| `EventStream.CorrectedStreamParses` | dashboard.py:598-615 | with the corrected frame, a whole stream is read as the `init` event followed by every message taken from the queue, in the order taken, whatever line feeds the payloads hold |
| `EventStream.TranscriptsAgree` | dashboard.py:607-615 | when every payload is one line, the text the stream loop writes is the same as the corrected stream's |
| `EventStream.StreamParses` | dashboard.py:598-615 | the stream as written is read as the `init` event followed by every message taken from the queue, in the order taken, when every payload is one line |
| `EventStream.MultiLineLogIsCut` | dashboard.py:78-83 | as written, a two-line log line reaches the client as its first line only, when the second line is not itself an `event:` or `data:` line |
| `EventStream.MultiLineEventIsCut` | dashboard.py:610 | the same for any event type and any client between events, under the same condition on the second line |
| `EventStream.MultiLineLogIsRetyped` | dashboard.py:78-83 | as written, a two-line log line whose second line is `event: u` reaches the client as its first line under the event type `u`, not `log` |
| `EventStream.MultiLineEventIsRetyped` | dashboard.py:610 | the same for any event type and any client between events |
| `EventStream.MultiLineEventLosesDataPrefix` | dashboard.py:610 | as written, a two-line payload whose second line is `data: d` reaches the client as the first line and `d`, without the `data: ` |
| `EventStream.MultiLineLogDelivered` | dashboard.py:610 | with the corrected frame, every log line without a carriage return reaches the client whole |
| `SseHandler.OpenStream` | dashboard.py:598-605 | the `init` frame carries the rendering of the 200 most recent log lines, and a new empty queue of capacity 50 is subscribed after that |
| `SseHandler.NextFrame` | dashboard.py:609-615 | one loop turn takes the front message and writes its `event:`/`data:` frame as the source writes it, or writes a keepalive when the queue is empty |
| `SseHandler.ServeTurns` | dashboard.py:607-615 | `n` loop turns with nothing published meanwhile: turn `j` takes the `j`-th message of the queue while there is one and writes a keepalive after that, so the frames of the first `min(n, length)` messages come in FIFO order before every keepalive, and the rest stays in the queue |
| `SseHandler.ServeWhilePublishing` | dashboard.py:607-615 | loop turns and `_send_event` calls in any order follow `RunSteps`, so the messages the loop takes followed by the queue are the published messages in order while the subscriber is registered, and a prefix of them once it is dropped; the text written is the transcript of the loop turns, whose messages are exactly the ones taken |
| `SseHandler.CloseStream` | dashboard.py:618-619 | after the handler ends, its queue is no longer registered and the other subscribers are unchanged |
| `SseHandler.TranscriptAppend` | dashboard.py:607-615 | the text written by one more loop turn is that turn's frame appended to the text written before |

## Left out

- The lock and the threads. Every locked body is one atomic step, and `SseHandler.ServeWhilePublishing` takes such steps in any order. Interleavings inside one method's unlocked sequence of steps are not modelled, namely:
  - the producer running between the `init` snapshot and `subscribe` in `_serve_sse`;
  - the two separate locked steps of `add_log` (trim, then publish), which are one step here.
- `_max_log_lines` is the constant 500. The source has it as a dataclass field that a caller could set.
- `to_dict` and `json.dumps` are left out because they are serialisation of float-valued fields.
  - The `state` payload is an opaque string argument of `Notify`.
  - The `init` payload is a function `render` of the recent log lines.
- EventQueue.Get: the 15-second timeout of `q.get` is not modelled. An empty queue answers `None` at once, which is where the source writes a keepalive.
- `DashboardLogHandler`, the HTML page, the HTTP server and the response headers are not modelled. They are I/O and UI.
- Writing to the socket, `encode()` and `flush()` are not modelled. A frame is the text written.
- `_serve_sse`'s exception-driven exit is `CloseStream`: the handler ends and unsubscribes.
- SseHandler.ServeTurns: it covers loop turns with nothing published meanwhile. Publications between turns are covered by `SseHandler.ServeWhilePublishing`, where each locked step is atomic and the order of the steps is a parameter.
- The client model reads `event` and `data` fields, comments, line ends and dispatch. The `id` and `retry` fields are read as unknown fields. The byte-order mark, `Last-Event-ID` and reconnection are not modelled.
- EventStream.SplitFrameDelivers: it requires that the payload has no carriage return. The corrected frame splits the payload only at line feeds.
- The keepalive frame is the comment `:keepalive\n\n`, with no space after the colon (dashboard.py:614). A client reads a line that starts with a colon as a comment and ignores it (section 9.2 of the WHATWG HTML Living Standard, "Interpreting an event stream").
- The `data` of an `init` or `state` event is JSON text, but the `data` of a `log` event is the log line itself (dashboard.py:83), which may hold line feeds. This is the origin of the finding below.

## Findings

| source | as written | input that shows it | evidently intended | confidence | as-written member | corrected member |
|---|---|---|---|---|---|---|
| dashboard.py:610 | the log line is written as it is after `data: `, so a line feed inside it ends the `data` field early; the rest is read as lines of their own, and a rest of the form `event: u` re-types the event to `u`, so the page's `log` listener does not see it | a log line `"first\nsecond"`, such as a message followed by a traceback; the client dispatches `("log", "first")`, and `second` is read as an unknown field and ignored; the log line `"a\nevent: x"` is dispatched as `("x", "a")` | one `data:` line per line of the payload, so that the client reassembles the whole line | not executed | `EventStream.MultiLineLogIsCut`, with `EventStream.MultiLineLogIsRetyped` | `EventStream.SplitEventFrame`, proved by `EventStream.MultiLineLogDelivered` and `EventStream.SplitFrameDelivers` |

The handler (`SseHandler.NextFrame`, `SseHandler.ServeTurns`,
`EventStream.OutputFrame`, `EventStream.Transcript`) writes the frame as the
source writes it, and `EventStream.StreamParses` proves the whole stream for
one-line payloads. The corrected frame (`EventStream.SplitEventFrame`,
`EventStream.CorrectedTranscript`) is read back whole for any payload
(`EventStream.CorrectedStreamParses`). `EventStream.SplitFrameAgrees` and
`EventStream.TranscriptsAgree` show that the two are the same text whenever
every payload is one line, which includes all `init` and `state` payloads
(JSON text has no raw line feed).
