# SessionClient: an asynchronous WebSocket client session

This project models `SessionClient`, the client session of the networking
library, in Dafny. A session connects to a WebSocket server in a chain of
completion handlers: `run` resolves the server address, `on_resolve`
connects, `on_connect` records the peer endpoint and starts the opening
handshake with a `Host` value built from the address and the connected
port, `on_handshake` issues the first read, and `on_read` hands each
received message to the read callback and issues the next read until a read
fails. Independently, `sendAsync` takes a serialized message, drops it when
the serializer returned a null pointer or a zero size, and otherwise posts it
to `on_send`. `on_send` and `on_write` drain an outbound queue with at most
one write outstanding. Every failing completion goes to `on_error`, which
invokes the error callback and then the close callback, each only if it is
set.

Layout:

- `wrappers.dfy`: `Option`.
- `host.dfy` (module `Host`): the decimal rendering of a 16-bit port
  (`std::to_string`), the `Host` header value `address:port` (section 5.4 of
  RFC 7230), and its inverse `SplitHost`, with round-trip lemmas.
- `events.dfy` (module `Events`): endpoints, error codes, serializer results,
  queue entries, the callback table, and the `Event`s a session produces.
  An event is an operation it starts (resolve, connect, handshake, read,
  write, post) or a callback it invokes (read, error, close). It also holds
  the callback lists of `on_error` (`Reported`) and `on_read` (`Delivered`).
- `session.dfy` (module `Session`): the class `SessionClient`. Its fields are
  the source's `endpoint`, `buffer_` and `queue_`. One method per handler
  modifies them. Each method appends the events of the handler, in order, to
  a ghost `trace`.
- `scenarios.dfy` (module `Scenarios`): client code that drives sessions
  through whole runs using only the handlers' contracts.

The asynchronous machinery is modelled as follows. The operation a handler
starts is an event in the trace. The later completion of that operation is
a call of the matching handler method with the completion's error code. The
ghost `phase` records which handler of the connection chain is pending. In
the source this is implicit: it is the one handler that has been scheduled.
Ghost logs record the write path: `accepted` holds every message queued,
`written` every write issued, `completed` every write that succeeded, and
`writeFailed` is set once a write has failed. `readsIssued` and
`readsCompleted` count the reads. The invariant `Valid()` ties these logs to
the queue and the phase.

Three behaviours of the code that a caller may not expect, all kept in the
model:

- Nothing guards `on_error` against running twice. A failed write and a
  later failed read each invoke the error and close callbacks
  (`Scenarios.WriteFailureThenReadFailure`).
- A failed write does not stop the read loop. It also does not remove the
  failed message: it stays at the head of the queue, and later sends queue
  up behind it without ever being written.
- The `Host` value uses the port of the endpoint actually connected
  (`ep.port()`), not the configured `serverPort`. The resolve query uses the
  configured port.

## Model

| member | source | states |
|---|---|---|
| Session.SessionClient.constructor | Networking/src/websocket_client_async.h:61-71 | a new session keeps the given address, port and callbacks; its endpoint is unspecified, its queue is empty, and nothing has been started |
| Session.SessionClient.Run | Networking/src/websocket_client_async.h:74-87 | starts exactly one resolve, of the server address and the server port written in decimal, and moves the session to resolving |
| Session.SessionClient.OnError | Networking/src/websocket_client_async.h:89-96 | appends the error callback and then the close callback, each only if it is set, both at the current endpoint with the error code; starts no operation and changes nothing else |
| Session.SessionClient.OnResolve | Networking/src/websocket_client_async.h:98-115 | on an error: reports it through `on_error` and stops the chain; otherwise: starts one connect to exactly the resolved candidates |
| Session.SessionClient.OnConnect | Networking/src/websocket_client_async.h:117-159 | records the endpoint the completion carries before checking the error, so an error is reported at that endpoint (the default endpoint when every attempt failed); on success starts one handshake whose Host value is the server address, ':' and the connected port, with target "/" |
| Session.SessionClient.OnHandshake | Networking/src/websocket_client_async.h:161-173 | on an error: reports it and issues no read; otherwise: issues exactly one read and the session is reading |
| Session.SessionClient.OnRead | Networking/src/websocket_client_async.h:175-198 | on an error: reports it and issues no further read; otherwise: delivers the received bytes and their count at the peer endpoint when the read callback is set, leaves the buffer empty, and issues exactly one new read |
| Session.SessionClient.SendAsync | Networking/src/websocket_client_async.h:200-222 | a null pointer or zero size changes nothing; otherwise the message is posted and appended at the tail of the queue, and it is written at once exactly when the queue was empty |
| Session.SessionClient.OnSend | Networking/src/websocket_client_async.h:224-248 | appends the message at the tail of the queue; issues the write of the new head exactly when the queue was empty before, otherwise issues nothing |
| Session.SessionClient.OnWrite | Networking/src/websocket_client_async.h:250-273 | on an error: reports it, leaves the queue unchanged and issues no write; otherwise: removes exactly the head, records it as completed, and issues the write of the new head exactly when the queue is still non-empty |
| Session.WriteDiscipline | Networking/src/websocket_client_async.h:224-273 | in every valid session at most one write is outstanding; a write is outstanding exactly when the queue is non-empty and no write failed; the writes issued are a prefix of the accepted messages in acceptance order (first in, first out); and once the queue is empty every accepted message has been written and completed |
| Session.ReadDiscipline | Networking/src/websocket_client_async.h:161-198 | exactly one read is outstanding while the session is reading, and none before the handshake or after a read failed |
| Events.Reported | Networking/src/websocket_client_async.h:89-96 | the callbacks `on_error` invokes contain no operation: reporting an error starts no write, no read and nothing else |
| Events.ReportedOrder | Networking/src/websocket_client_async.h:89-96 | the error callback is invoked iff it is set and the close callback iff it is set, nothing else is invoked, each at most once, and the error callback comes first |
| Events.Delivered | Networking/src/websocket_client_async.h:184-187 | the read callback receives the peer endpoint, the received bytes and their count, only when it is set, and starts no operation |
| Host.Decimal | Networking/src/websocket_client_async.h:83 | the port is written as a non-empty string of decimal digits that starts with '0' only for port 0 |
| Host.ParseDecimalOfDecimal | Networking/src/websocket_client_async.h:83 | reading the decimal rendering of a number back gives that number |
| Host.DecimalOfParseDecimal | Networking/src/websocket_client_async.h:83 | every canonical numeral is the decimal rendering of its value |
| Host.DecimalInjective | Networking/src/websocket_client_async.h:83 | two numbers have the same decimal rendering iff they are equal |
| Host.HostValue | Networking/src/websocket_client_async.h:151-152 | the Host value is the address, then ':', then the port in decimal, and no ':' follows that one, so the value can be split back (its partner is `Host.HostValueRoundTrip`) |
| Host.LastColonOfHostValue | Networking/src/websocket_client_async.h:151-152 | the last ':' of a Host value is the one right after the address, whatever the address holds |
| Host.SplitHostValue | Networking/src/websocket_client_async.h:151-152 | splitting a Host value at its last ':' gives back the address and the port it was built from |
| Host.SplitIsHostValue | Networking/src/websocket_client_async.h:151-152 | every string that splits into an address and a port is the Host value of that address and port |
| Host.HostValueRoundTrip | Networking/src/websocket_client_async.h:151-152 | a string splits into an address and a port iff it is the Host value of that address and port |
| Scenarios.BackToBackSends | Networking/src/websocket_client_async.h:200-248 | two messages sent on an idle write path are queued in order, and only the first one's write starts |
| Scenarios.DrainTwo | Networking/src/websocket_client_async.h:250-273 | two successful write completions drain a queue of two in order: the queue length goes 2, 1, 0, and the second write starts only after the first completed |
| Scenarios.RefusedConnection | Networking/src/websocket_client_async.h:74-123 | a whole run against a server that refuses every attempt: one resolve, one connect to the resolved candidates, then the error and the close callback once each at the default endpoint 0.0.0.0:0, the session stopped and no read ever issued |
| Scenarios.WriteFailureThenReadFailure | Networking/src/websocket_client_async.h:175-182 | a failed write leaves the read loop and the failed message in place, a later message queues behind it without a write, and a later failed read reports error and close a second time |

## Left out

- The Asio and Beast I/O (resolver, TCP stream, WebSocket stream, handshake,
  reads and writes) is not modelled. Each operation a handler starts is an
  event in the trace. Its completion is a later call of the handler method,
  with the error code and, where there is one, the result as parameters.
- Strands and `net::post` are not modelled. Handlers run one at a time, in
  the order the caller invokes them. The post in `sendAsync` is the
  `SendPosted` event followed directly by `on_send`; other handlers that run
  in between are not modelled.
- `shared_from_this` and the object's lifetime are not modelled. The
  session lives for as long as the model refers to it.
- Timeouts (`expires_after`, `expires_never`, the suggested WebSocket
  timeouts) are not modelled, because they only act through the I/O layer.
  Neither is the User-Agent decorator, which only affects the handshake
  request's headers.
- Raw pointers are not modelled. A serializer result is an optional byte
  sequence with a size. The model keeps the bytes and the size side by side,
  as the source's pair does, and does not require them to agree.
- The serializer callback is not modelled: `SendAsync` takes the value it
  returned. The source calls the serializer once, inside `sendAsync`.
- The endpoint a connect completion carries is a parameter of
  `OnConnect`. The range connect behind `async_connect` delivers the default
  endpoint when every attempt failed; `Scenarios.RefusedConnection` passes
  that endpoint.
- The null check on the result of `std::make_shared` (line 209) is not
  modelled, because `make_shared` reports failure by throwing, so that
  branch cannot be reached.
- `callbackAccept` is part of the callback table but is never invoked by the
  session. The model carries its flag and does nothing with it.
- Callbacks are fixed when the session is constructed. The model does not
  cover reassigning the public `callbacks` and `endpoint` members from
  outside.
- Session.SessionClient.Run: requires a session that has not started yet.
  The source does not stop `run` from being called a second time.
- Session.SessionClient.OnRead: the bytes a failed read may have left in
  `buffer_` are not modelled. On an error the model leaves the buffer empty,
  and the source does not use it either.
- Session.SessionClient.OnWrite: requires a write in flight. A completion
  can only arrive for a write that was issued.
- Session.SessionClient.Valid: the ghost logs `written` and `readsIssued` are kept in
  step with the `WriteIssued` and `ReadIssued` events each method appends
  to `trace`. They are not derived from the whole trace by `Events.Writes`
  and `Events.ReadsIssued`.
- `Networking/src/listener.h` is not part of this model: it declares a
  server-side listener whose bodies are not available.
