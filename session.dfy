/**
 * SessionClient, a WebSocket client session driven by asynchronous
 * completions. Each completion handler is a method: the completion's error
 * code (and what the completed operation produced) are its parameters; the
 * operations it starts and the callbacks it invokes are appended, in order,
 * to the ghost `trace`.
 *
 * Two chains run independently. The connection chain goes resolve, connect,
 * handshake and then reads until a read fails; its position is the ghost
 * `phase`, which the source keeps implicitly as the one handler it has
 * scheduled. The write chain drains `queue` with at most one write
 * outstanding.
 */
module Session {

  import opened Wrappers
  import opened Host
  import opened Events

  datatype Phase = Created | Resolving | Connecting | Handshaking | Reading | Stopped

  /** A serializer result `sendAsync` drops: a null pointer or a zero size. */
  predicate IsEmptyMessage(p: Serialized) {
    p.data.None? || p.size == 0
  }

  /** The queue's head as a sequence of at most one entry. */
  function HeadOf(q: seq<Msg>): (r: seq<Msg>)
    ensures |r| == if q == [] then 0 else 1
    ensures r == q[..|r|]
  {
    if q == [] then [] else [q[0]]
  }

  class SessionClient {
    const serverAddress: string
    const serverPort: Port
    const callbacks: Callbacks
    var endpoint: Endpoint
    var buffer: seq<byte>
    var queue: seq<Msg>

    ghost var phase: Phase
    ghost var trace: seq<Event>
    /** Every message `on_send` appended, in order. */
    ghost var accepted: seq<Msg>
    /** The message of every write issued, in order. */
    ghost var written: seq<Msg>
    /** Every message whose write completed without error, in order. */
    ghost var completed: seq<Msg>
    /** A write completed with an error; its message stays at the head of the queue. */
    ghost var writeFailed: bool
    ghost var readsIssued: nat
    ghost var readsCompleted: nat

    /**
     * The session's invariant. The inbound buffer is empty between handlers;
     * the queue holds exactly the accepted messages not yet written; the writes
     * issued so far are the completed ones followed by the queue's head (the
     * outstanding or the failed write); and the reads issued are the completed
     * ones plus the one outstanding while the session is reading.
     */
    ghost predicate Valid()
      reads this
    {
      && buffer == []
      && accepted == completed + queue
      && (writeFailed ==> queue != [])
      && written == completed + HeadOf(queue)
      && readsIssued == readsCompleted + (if phase == Reading then 1 else 0)
    }

    /** A write has been issued and its completion has not arrived yet. */
    ghost predicate WriteInFlight()
      reads this
    {
      queue != [] && !writeFailed
    }

    constructor (address: string, port: Port, cbs: Callbacks)
      ensures Valid()
      ensures serverAddress == address && serverPort == port && callbacks == cbs
      ensures endpoint == Unspecified && queue == [] && phase == Created && trace == []
      ensures accepted == [] && written == [] && completed == [] && !writeFailed
      ensures readsIssued == 0 && readsCompleted == 0
    {
      serverAddress, serverPort, callbacks := address, port, cbs;
      endpoint := Unspecified;
      buffer, queue := [], [];
      phase, trace := Created, [];
      accepted, written, completed, writeFailed := [], [], [], false;
      readsIssued, readsCompleted := 0, 0;
    }

    /** `run`: resolve the server's address and its port written in decimal. */
    method Run()
      requires Valid() && phase == Created
      modifies this`phase, this`trace
      ensures Valid() && phase == Resolving
      ensures trace == old(trace) + [ResolveIssued(serverAddress, Decimal(serverPort))]
    {
      var issued := [ResolveIssued(serverAddress, Decimal(serverPort))];
      trace := trace + issued;
      phase := Resolving;
    }

    /** `on_error`: the error callback, then the close callback, each if set; nothing is started. */
    method OnError(ec: ErrorCode)
      modifies this`trace
      ensures trace == old(trace) + Reported(callbacks, endpoint, ec)
    {
      ghost var before, reported := trace, Reported(callbacks, endpoint, ec);
      if callbacks.hasError {
        trace := trace + [ErrorReported(endpoint, ec)];
      }
      assert trace == before + reported[..if callbacks.hasError then 1 else 0];
      if callbacks.hasClose {
        trace := trace + [CloseReported(endpoint, ec)];
      }
      assert trace == before + reported;
    }

    /** `on_resolve`: on an error report it and stop; otherwise connect to the resolved candidates. */
    method OnResolve(ec: ErrorCode, results: seq<Endpoint>)
      requires Valid() && phase == Resolving
      modifies this`phase, this`trace
      ensures Valid()
      ensures ec.IsError() ==> phase == Stopped && trace == old(trace) + Reported(callbacks, endpoint, ec)
      ensures !ec.IsError() ==> phase == Connecting && trace == old(trace) + [ConnectIssued(results)]
    {
      if ec.IsError() {
        OnError(ec);
        phase := Stopped;
        return;
      }
      var issued := [ConnectIssued(results)];
      trace := trace + issued;
      phase := Connecting;
    }

    /**
     * `on_connect`: record the peer endpoint first, then on an error report it
     * (at that endpoint) and stop; otherwise start the handshake with the Host
     * value built from the server address and the connected port, target "/".
     */
    method OnConnect(ec: ErrorCode, ep: Endpoint)
      requires Valid() && phase == Connecting
      modifies this`endpoint, this`phase, this`trace
      ensures Valid() && endpoint == ep
      ensures ec.IsError() ==> phase == Stopped && trace == old(trace) + Reported(callbacks, ep, ec)
      ensures !ec.IsError() ==>
        && phase == Handshaking
        && trace == old(trace) + [HandshakeIssued(HostValue(serverAddress, ep.port), "/")]
    {
      endpoint := ep;
      if ec.IsError() {
        OnError(ec);
        phase := Stopped;
        return;
      }
      var host := HostValue(serverAddress, ep.port);
      var issued := [HandshakeIssued(host, "/")];
      trace := trace + issued;
      phase := Handshaking;
    }

    /** `on_handshake`: on an error report it and stop; otherwise issue the first read. */
    method OnHandshake(ec: ErrorCode)
      requires Valid() && phase == Handshaking
      modifies this`phase, this`trace, this`readsIssued
      ensures Valid()
      ensures ec.IsError() ==>
        && phase == Stopped && readsIssued == old(readsIssued)
        && trace == old(trace) + Reported(callbacks, endpoint, ec)
      ensures !ec.IsError() ==>
        && phase == Reading && readsIssued == old(readsIssued) + 1
        && trace == old(trace) + [ReadIssued]
    {
      if ec.IsError() {
        OnError(ec);
        phase := Stopped;
        return;
      }
      trace, readsIssued := trace + [ReadIssued], readsIssued + 1;
      phase := Reading;
    }

    /**
     * `on_read`, after the outstanding read completed having placed `received`
     * in the buffer. On an error: report it and issue no further read. Otherwise
     * hand the received bytes to the read callback (if set), empty the buffer
     * and issue exactly one new read.
     */
    method OnRead(ec: ErrorCode, received: seq<byte>)
      requires Valid() && phase == Reading
      modifies this`buffer, this`phase, this`trace, this`readsIssued, this`readsCompleted
      ensures Valid() && readsCompleted == old(readsCompleted) + 1
      ensures ec.IsError() ==>
        && phase == Stopped && readsIssued == old(readsIssued)
        && trace == old(trace) + Reported(callbacks, endpoint, ec)
      ensures !ec.IsError() ==>
        && phase == Reading && readsIssued == old(readsIssued) + 1
        && trace == old(trace) + Delivered(callbacks, endpoint, received) + [ReadIssued]
    {
      if ec.IsError() {
        OnError(ec);
        phase, readsCompleted := Stopped, readsCompleted + 1;
        return;
      }
      buffer := buffer + received;
      assert buffer == received;
      var bytesTransferred := |received|;
      ghost var before, delivered := trace, Delivered(callbacks, endpoint, received);
      if callbacks.hasRead {
        trace := trace + [ReadDelivered(endpoint, buffer, bytesTransferred)];
      }
      assert trace == before + delivered;
      buffer := buffer[|buffer|..];
      trace, readsIssued := trace + [ReadIssued], readsIssued + 1;
      readsCompleted := readsCompleted + 1;
    }

    /**
     * `sendAsync` with what the serializer returned: drop it when the pointer is
     * null or the size is 0; otherwise post it and run `on_send` with it.
     */
    method SendAsync(produced: Serialized)
      requires Valid()
      modifies this`queue, this`trace, this`accepted, this`written
      ensures Valid()
      ensures IsEmptyMessage(produced) ==>
        && queue == old(queue) && accepted == old(accepted)
        && written == old(written) && trace == old(trace)
      ensures !IsEmptyMessage(produced) ==>
        var m := Msg(produced.data.value, produced.size);
        && queue == old(queue) + [m]
        && accepted == old(accepted) + [m]
        && written == old(written) + (if old(queue) == [] then [m] else [])
        && trace == old(trace) + [SendPosted(m)] + (if old(queue) == [] then [WriteIssued(m)] else [])
    {
      if IsEmptyMessage(produced) {
        return;
      }
      var m := Msg(produced.data.value, produced.size);
      trace := trace + [SendPosted(m)];
      OnSend(m);
    }

    /**
     * `on_send`: append `m` at the tail of the queue; when the queue was empty
     * before, issue the write of its (new) head, otherwise issue nothing.
     */
    method OnSend(m: Msg)
      requires Valid()
      modifies this`queue, this`trace, this`accepted, this`written
      ensures Valid()
      ensures queue == old(queue) + [m] && accepted == old(accepted) + [m]
      ensures written == old(written) + (if old(queue) == [] then [m] else [])
      ensures trace == old(trace) + (if old(queue) == [] then [WriteIssued(m)] else [])
    {
      queue := queue + [m];
      accepted := accepted + [m];
      if |queue| > 1 {
        return;
      }
      var next := queue[0];
      trace, written := trace + [WriteIssued(next)], written + [next];
    }

    /**
     * `on_write`, after the outstanding write completed. On an error: report it
     * and leave the queue as it is, so no write is ever issued again. Otherwise
     * remove exactly the head and issue the write of the new head, if any.
     */
    method OnWrite(ec: ErrorCode)
      requires Valid() && WriteInFlight()
      modifies this`queue, this`trace, this`written, this`completed, this`writeFailed
      ensures Valid()
      ensures ec.IsError() ==>
        && writeFailed && !WriteInFlight()
        && queue == old(queue) && completed == old(completed) && written == old(written)
        && trace == old(trace) + Reported(callbacks, endpoint, ec)
      ensures !ec.IsError() ==>
        && !writeFailed
        && queue == old(queue)[1..] && completed == old(completed) + [old(queue)[0]]
        && written == old(written) + HeadOf(queue)
        && trace == old(trace) + (if queue == [] then [] else [WriteIssued(queue[0])])
    {
      if ec.IsError() {
        OnError(ec);
        writeFailed := true;
        return;
      }
      completed := completed + [queue[0]];
      queue := queue[1..];
      assert accepted == completed + queue;
      if queue != [] {
        var next := queue[0];
        trace, written := trace + [WriteIssued(next)], written + [next];
      }
    }
  }

  /**
   * The write discipline every session keeps: at most one write is
   * outstanding, one is outstanding exactly when the queue is non-empty and no
   * write failed, and writes go out in the order their messages were accepted.
   */
  lemma WriteDiscipline(s: SessionClient)
    requires s.Valid()
    ensures |s.written| == |s.completed| + (if s.writeFailed then 1 else 0) + (if s.WriteInFlight() then 1 else 0)
    ensures !(s.writeFailed && s.WriteInFlight())
    ensures |s.written| <= |s.accepted| && s.written == s.accepted[..|s.written|]
    ensures s.queue == [] ==> s.written == s.accepted && s.completed == s.accepted
  {
  }

  /** At most one read is outstanding, and none once the connection chain has stopped. */
  lemma ReadDiscipline(s: SessionClient)
    requires s.Valid()
    ensures s.readsIssued - s.readsCompleted == (if s.phase == Reading then 1 else 0)
  {
  }
}
