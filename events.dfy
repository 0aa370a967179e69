/**
 * The values a WebSocket client session handles (endpoints, error codes,
 * outbound messages, its callback table) and the events it produces: the
 * asynchronous operations it issues and the callbacks it invokes. A session
 * keeps these events as a ghost trace; the projections below pick out the
 * writes, the reads and the operations of a trace.
 */
module Events {

  import opened Wrappers
  import opened Host

  newtype byte = x: int | 0 <= x < 256

  /** A peer's address and port (`tcp::endpoint`). */
  datatype Endpoint = Endpoint(address: string, port: Port)

  /** A default-constructed `tcp::endpoint`: the unspecified IPv4 address and port 0. */
  const Unspecified := Endpoint("0.0.0.0", 0)

  /** An asynchronous completion's `error_code`; it signals an error when its value is not 0. */
  datatype ErrorCode = ErrorCode(value: int) {
    predicate IsError() {
      value != 0
    }
  }

  const Ok := ErrorCode(0)

  /** What a serializer returns: a pointer (None for a null pointer) and a size in bytes. */
  datatype Serialized = Serialized(data: Option<seq<byte>>, size: nat)

  /** An entry of the outbound queue: the serialized bytes and the size to write. */
  datatype Msg = Msg(data: seq<byte>, size: nat)

  /** Which of the four optional callbacks are set. */
  datatype Callbacks = Callbacks(hasRead: bool, hasAccept: bool, hasClose: bool, hasError: bool)

  datatype Event =
    | ResolveIssued(host: string, service: string)
    | ConnectIssued(candidates: seq<Endpoint>)
    | HandshakeIssued(hostHeader: string, target: string)
    | ReadIssued
    | WriteIssued(msg: Msg)
    | SendPosted(posted: Msg)
    | ReadDelivered(peer: Endpoint, bytes: seq<byte>, size: nat)
    | ErrorReported(at: Endpoint, ec: ErrorCode)
    | CloseReported(closedAt: Endpoint, closeEc: ErrorCode)
  {
    /** An asynchronous operation the session starts, as opposed to a callback it invokes. */
    predicate IsOperation() {
      ResolveIssued? || ConnectIssued? || HandshakeIssued? || ReadIssued? || WriteIssued? || SendPosted?
    }
  }

  /** The messages of the writes issued in `t`, in issue order. */
  function Writes(t: seq<Event>): (r: seq<Msg>)
    decreases |t|
  {
    if t == [] then []
    else (if t[0].WriteIssued? then [t[0].msg] else []) + Writes(t[1..])
  }

  /** How many reads were issued in `t`. */
  function ReadsIssued(t: seq<Event>): (n: nat)
    decreases |t|
  {
    if t == [] then 0
    else (if t[0].ReadIssued? then 1 else 0) + ReadsIssued(t[1..])
  }

  /** The operations issued in `t`, in issue order. */
  function Operations(t: seq<Event>): (r: seq<Event>)
    decreases |t|
  {
    if t == [] then []
    else (if t[0].IsOperation() then [t[0]] else []) + Operations(t[1..])
  }

  /** A trace made only of callbacks issues no operation, so in particular no write and no read. */
  lemma {:induction false} NoOperations(t: seq<Event>)
    requires forall e :: e in t ==> !e.IsOperation()
    ensures Operations(t) == [] && Writes(t) == [] && ReadsIssued(t) == 0
    decreases |t|
  {
    if t != [] {
      assert t[0] in t;
      NoOperations(t[1..]);
    }
  }

  /**
   * The callbacks `on_error` invokes for `ec` at `at`: the error callback and
   * then the close callback, each only when it is set. None of them is an
   * operation, so reporting an error starts nothing.
   */
  function Reported(cb: Callbacks, at: Endpoint, ec: ErrorCode): (r: seq<Event>)
    ensures Operations(r) == [] && Writes(r) == [] && ReadsIssued(r) == 0
  {
    var r := (if cb.hasError then [ErrorReported(at, ec)] else []) + (if cb.hasClose then [CloseReported(at, ec)] else []);
    NoOperations(r);
    r
  }

  /**
   * `on_error` invokes the error callback exactly when it is set and the close
   * callback exactly when it is set, each at most once, the error callback first.
   */
  lemma ReportedOrder(cb: Callbacks, at: Endpoint, ec: ErrorCode)
    ensures var r := Reported(cb, at, ec);
      && (ErrorReported(at, ec) in r <==> cb.hasError)
      && (CloseReported(at, ec) in r <==> cb.hasClose)
      && (forall e :: e in r ==> e == ErrorReported(at, ec) || e == CloseReported(at, ec))
      && (forall i, j :: 0 <= i < |r| && 0 <= j < |r| && r[i].ErrorReported? && r[j].CloseReported? ==> i < j)
      && |r| == (if cb.hasError then 1 else 0) + (if cb.hasClose then 1 else 0)
  {
  }

  /** The read callback `on_read` invokes, when it is set, with the bytes received from `peer`. */
  function Delivered(cb: Callbacks, peer: Endpoint, bytes: seq<byte>): (r: seq<Event>)
    ensures Operations(r) == [] && Writes(r) == [] && ReadsIssued(r) == 0
    ensures cb.hasRead ==> r == [ReadDelivered(peer, bytes, |bytes|)]
    ensures !cb.hasRead ==> r == []
  {
    var r := if cb.hasRead then [ReadDelivered(peer, bytes, |bytes|)] else [];
    NoOperations(r);
    r
  }
}
