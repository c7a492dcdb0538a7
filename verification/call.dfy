/** Submitting batch operations on a call (src/call/mod.rs): `check_run`
    and the batch kind each `Call::start_*` method asks for. */
module Call {
  import opened Wrappers
  import opened Grpc
  import opened Promise

  /** `check_run`: the promise's tag is handed to the native submission. If
      the submission is refused, the promise is reclaimed at once and never
      reaches a poller; otherwise the caller gets the future and the tag is
      pending. `tag` is the fresh address of the boxed promise. */
  function CheckRun(pending: Table, tag: Tag, bt: BatchType, code: CallCode): (r: (Table, Result<Tag, Error>))
    requires tag !in pending
    ensures code != CallOk ==> r == (pending, Failure(CallFailure(code)))
    ensures code == CallOk ==> r.1 == Success(tag) && r.0 == pending[tag := Batch(bt)]
    ensures r.0.Keys - {tag} == pending.Keys
  {
    if code != CallOk then (pending, Failure(CallFailure(code)))
    else (pending[tag := Batch(bt)], Success(tag))
  }

  /** The batch kind each `start_*` method submits. Aborting a call is not a
      batch of this revision and gets no kind. Only the receive operation
      reads a message, and no call-side operation checks the status before
      reading. */
  function BatchTypeOf(op: NativeOp): (r: Option<BatchType>)
    ensures r.None? <==> op.Abort?
    ensures r == Some(Read) <==> op.RecvMessage?
    ensures r != Some(CheckRead)
  {
    match op
    case SendMessage(_, _, _) => Some(Finish)
    case SendCloseFromClient => Some(Finish)
    case RecvMessage => Some(Read)
    case StartServerSide => Some(Finish)
    case SendStatusFromServer(_, _, _, _) => Some(Finish)
    case Abort(_) => None
  }

  /** The `initial_meta` and `send_empty_metadata` flags are passed to the
      native layer as 1 or 0. */
  function Flag(b: bool): (i: nat)
    ensures i <= 1 && (i == 1 <==> b)
  {
    if b then 1 else 0
  }
}
