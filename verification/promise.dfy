/** Promises that turn a native completion into a future's result
    (src/async/promise.rs). A promise is resolved once, by the poller that
    receives its tag; the tag table in `Env` consumes it. */
module Promise {
  import opened Wrappers
  import opened Grpc
  import opened BatchContext

  /** `BatchType`. The receive batch is called `ReadOne` in one revision of
      the call module and `Read` here; it is the same kind. */
  datatype BatchType = Finish | Read | CheckRead

  /** A pending promise: a batch of one of the three kinds, or the server's
      shutdown notification. */
  datatype Promise = Batch(ty: BatchType) | Shutdown

  /** The value a batch future resolves to. */
  type BatchMessage = Result<Option<Bytes>, Error>

  /** What resolving a promise does: sets a batch result, sets the shutdown
      result, or panics on an `assert!(success)`. */
  datatype Resolution = Panicked | BatchSet(message: BatchMessage) | ShutdownSet(result: Result<(), Error>)

  /** `finish_response`: a failed batch means the remote stopped, and then
      the status is never read; otherwise the status decides. */
  function FinishResponse(ctx: Ctx, succeed: bool): (r: BatchMessage)
    ensures !succeed ==> r == Failure(RemoteStopped)
    ensures succeed && ctx.statusCode != Ok ==> r == Failure(RpcFailure(RpcStatusOf(ctx)))
    ensures succeed && ctx.statusCode == Ok ==> r == Success(None)
  {
    if !succeed then Failure(RemoteStopped)
    else
      var status := RpcStatusOf(ctx);
      if status.status != Ok then Failure(RpcFailure(status)) else Success(None)
  }

  /** `handle_unary_response`: the status is checked before the message is
      trusted. */
  function HandleUnaryResponse(ctx: Ctx): (r: BatchMessage)
    ensures ctx.statusCode != Ok ==> r.Failure? && r.error == RpcFailure(RpcStatusOf(ctx))
    ensures ctx.statusCode == Ok ==> r == Success(ctx.message)
  {
    var status := RpcStatusOf(ctx);
    if status.status != Ok then Failure(RpcFailure(status)) else Success(ctx.message)
  }

  /** `read_one_msg`: the received message, whatever the status. */
  function ReadOneMsg(ctx: Ctx): (r: BatchMessage)
    ensures r.Success? && r.value == ctx.message
  {
    Success(ctx.message)
  }

  /** `Batch::resolve` and `Shutdown::resolve`. */
  function Resolve(p: Promise, ctx: Ctx, success: bool): (r: Resolution)
    ensures p.Batch? && p.ty != Finish && !success <==> r.Panicked?
    ensures p.Shutdown? <==> r.ShutdownSet?
    ensures p.Shutdown? ==> (r.result.Success? <==> success)
    ensures p.Shutdown? && !success ==> r.result == Failure(ShutdownFailed)
    ensures p == Batch(Finish) ==> r == BatchSet(FinishResponse(ctx, success))
    ensures p == Batch(Read) && success ==> r == BatchSet(Success(ctx.message))
    ensures p == Batch(CheckRead) && success ==> r == BatchSet(HandleUnaryResponse(ctx))
    // only a receive batch can yield a payload; a finishing batch never does
    ensures r.BatchSet? && r.message.Success? && r.message.value.Some? ==> p == Batch(Read) || p == Batch(CheckRead)
  {
    match p
    case Batch(CheckRead) => if !success then Panicked else BatchSet(HandleUnaryResponse(ctx))
    case Batch(Finish) => BatchSet(FinishResponse(ctx, success))
    case Batch(Read) => if !success then Panicked else BatchSet(ReadOneMsg(ctx))
    case Shutdown => if success then ShutdownSet(Success(())) else ShutdownSet(Failure(ShutdownFailed))
  }

  /** A successful batch that carries a non-Ok status surfaces that status
      as an RPC failure, for every kind that reads the status. */
  lemma NonOkStatusFails(ty: BatchType, ctx: Ctx)
    requires ty != Read && ctx.statusCode != Ok
    ensures Resolve(Batch(ty), ctx, true) == BatchSet(Failure(RpcFailure(RpcStatus(ctx.statusCode, Some(ctx.details)))))
  {
  }

  type Tag = nat

  /** Promises whose tags have been handed to the native layer and not yet
      come back. */
  type Table = map<Tag, Promise>
}
