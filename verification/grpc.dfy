/** Vocabulary shared by every component: bytes, status codes, the error
    taxonomy, the abstract future and poll results, and the native operations
    a call can submit. Native (foreign) calls are never executed here: their
    results enter the model as parameters of these types. */
module Grpc {
  import opened Wrappers

  type Byte = b: int | 0 <= b < 256
  type Bytes = seq<Byte>

  /** Width of the target's `usize`; its maximum is used as a sentinel. */
  datatype PointerWidth = Bits32 | Bits64

  function UsizeMax(w: PointerWidth): nat {
    match w
    case Bits32 => 0xFFFF_FFFF
    case Bits64 => 0xFFFF_FFFF_FFFF_FFFF
  }

  /** The gRPC status codes carried by a terminal status. */
  datatype StatusCode =
    | Ok | Cancelled | Unknown | InvalidArgument | DeadlineExceeded | NotFound
    | AlreadyExists | PermissionDenied | ResourceExhausted | FailedPrecondition
    | Aborted | OutOfRange | Unimplemented | Internal | Unavailable | DataLoss
    | Unauthenticated

  /** The synchronous answer of the native layer when an operation is submitted. */
  datatype CallCode = CallOk | CallError(code: nat)

  /** A terminal status: a code and optional detail text. */
  datatype RpcStatus = RpcStatus(status: StatusCode, details: Option<string>)

  /** The shape of a method. The source spells the fourth shape `Dulex` in
      one revision and `Duplex` in another; both denote the same variant. */
  datatype MethodType = Unary | ClientStreaming | ServerStreaming | Duplex

  /** The error taxonomy of the call layer. */
  datatype Error =
    | RemoteStopped
    | RpcFailure(rpcStatus: RpcStatus)
    | CallFailure(code: CallCode)
    | FutureStale
    | ShutdownFailed
    | QueueShutdown
    | Codec(reason: string)

  /** An abstract batch future: not yet completed, completed with a value,
      or completed with an error. */
  datatype Fut<T> = Pending | Resolved(value: T) | Failed(error: Error)

  /** The readiness half of a poll result; a poll returns `Result<Async<T>, Error>`. */
  datatype Async<T> = NotReady | Ready(value: T)

  type Poll<T> = Result<Async<T>, Error>

  /** Polls an abstract future. A completed future hands out its outcome
      exactly once: afterwards it is stale, so polling it again yields
      `FutureStale` and never the old value. */
  function PollFut<T>(f: Fut<T>): (r: (Fut<T>, Poll<T>))
    ensures f.Pending? <==> r.1 == Success(NotReady)
    ensures f.Pending? ==> r.0 == f
    ensures !f.Pending? ==> r.0 == Failed(FutureStale)
    ensures f.Resolved? ==> r.1 == Success(Ready(f.value))
    ensures f.Failed? ==> r.1 == Failure(f.error)
  {
    match f
    case Pending => (f, Success(NotReady))
    case Resolved(v) => (Failed(FutureStale), Success(Ready(v)))
    case Failed(e) => (Failed(FutureStale), Failure(e))
  }

  /** The native layer completing a future: only a pending future changes. */
  function Complete<T>(f: Fut<T>, outcome: Result<T, Error>): Fut<T> {
    if f.Pending? then
      match outcome
      case Success(v) => Resolved(v)
      case Failure(e) => Failed(e)
    else f
  }

  /** The native batch operations a call can submit. */
  datatype NativeOp =
    | SendMessage(msg: Bytes, flags: nat, initialMetadata: bool)
    | SendCloseFromClient
    | RecvMessage
    | StartServerSide
    | SendStatusFromServer(rpcStatus: RpcStatus, sendEmptyMetadata: bool, payload: Option<Bytes>, writeFlags: nat)
    | Abort(abortStatus: RpcStatus)
}
