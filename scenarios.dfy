/**
 * Client code driving a SessionClient through whole runs. Each method uses
 * only the contracts of the session's handlers, so what it asserts follows
 * from them for every session.
 */
module Scenarios {

  import opened Wrappers
  import Host
  import opened Events
  import opened Session

  /**
   * Two messages sent back to back on an idle write path: both are queued in
   * order, and only the first one's write starts.
   */
  method BackToBackSends(s: SessionClient, a: Msg, b: Msg)
    requires s.Valid() && s.queue == [] && a.size > 0 && b.size > 0
    modifies s
    ensures s.Valid() && s.queue == [a, b] && s.WriteInFlight()
    ensures s.written == old(s.written) + [a]
  {
    s.SendAsync(Serialized(Some(a.data), a.size));
    s.SendAsync(Serialized(Some(b.data), b.size));
  }

  /**
   * Draining a queue of two: the second write starts only when the first has
   * completed, and the queue length goes 2, 1, 0.
   */
  method DrainTwo(s: SessionClient) returns (lengths: seq<nat>)
    requires s.Valid() && |s.queue| == 2 && s.WriteInFlight()
    modifies s
    ensures lengths == [2, 1, 0]
    ensures s.Valid() && s.queue == [] && s.written == old(s.written) + [old(s.queue)[1]]
    ensures s.completed == old(s.completed) + old(s.queue)
  {
    var first := |s.queue|;
    s.OnWrite(Ok);
    var second := |s.queue|;
    s.OnWrite(Ok);
    lengths := [first, second, |s.queue|];
  }

  /**
   * A server that refuses every connection attempt. The connect completion
   * then carries the default endpoint, which `on_connect` records before it
   * checks the error, so the error and close callbacks run once each at the
   * unspecified endpoint, and no read is ever issued.
   */
  method RefusedConnection(address: string, port: Host.Port, candidates: seq<Endpoint>, ec: ErrorCode)
    returns (s: SessionClient)
    requires ec.IsError()
    ensures s.Valid() && s.phase == Stopped && s.endpoint == Unspecified && s.readsIssued == 0
    ensures s.trace == [ResolveIssued(address, Host.Decimal(port))] + [ConnectIssued(candidates)]
                       + [ErrorReported(Unspecified, ec), CloseReported(Unspecified, ec)]
  {
    var cbs := Callbacks(true, false, true, true);
    s := new SessionClient(address, port, cbs);
    s.Run();
    s.OnResolve(Ok, candidates);
    ghost var connecting := s.trace;
    assert connecting == [ResolveIssued(address, Host.Decimal(port))] + [ConnectIssued(candidates)];
    s.OnConnect(ec, Unspecified);
    ghost var reported := Reported(cbs, Unspecified, ec);
    assert reported == [ErrorReported(Unspecified, ec), CloseReported(Unspecified, ec)];
    assert s.trace == connecting + reported;
  }

  /**
   * A write fails on an open session, then a later read fails. The write
   * failure leaves the read loop running and the failed message queued; the
   * next message queues up behind it without a write; and the read failure
   * reports error and close a second time.
   */
  method WriteFailureThenReadFailure(s: SessionClient, m: Msg, n: Msg, werr: ErrorCode, rerr: ErrorCode)
    returns (queued: nat)
    requires s.Valid() && s.phase == Reading && s.queue == [] && !s.writeFailed
    requires m.size > 0 && n.size > 0 && werr.IsError() && rerr.IsError()
    modifies s
    ensures queued == 2 && s.phase == Stopped && s.writeFailed
    ensures s.trace == old(s.trace) + [SendPosted(m)] + [WriteIssued(m)] + Reported(s.callbacks, s.endpoint, werr)
                       + [SendPosted(n)] + Reported(s.callbacks, s.endpoint, rerr)
  {
    ghost var t0 := s.trace;
    s.SendAsync(Serialized(Some(m.data), m.size));
    assert s.trace == t0 + [SendPosted(m)] + [WriteIssued(m)];
    s.OnWrite(werr);
    ghost var t2 := s.trace;
    s.SendAsync(Serialized(Some(n.data), n.size));
    assert s.trace == t2 + [SendPosted(n)];
    s.OnRead(rerr, []);
    queued := |s.queue|;
  }
}
