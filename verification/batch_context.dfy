/** `RpcStatus` and `BatchContext` (src/call/mod.rs): what the native layer
    wrote for one batch, read back as a status and a message. The native
    reads are replaced by the contents of `Ctx`. */
module BatchContext {
  import opened Wrappers
  import opened Grpc

  /** The results of one batch as written by the native layer: the status
      code and detail text received on the client, and the received message
      (`None` when the native length is the "no message" sentinel). Turning
      the detail bytes into text (lossy UTF-8) is not modelled. */
  datatype Ctx = Ctx(statusCode: StatusCode, details: string, message: Option<Bytes>)

  /** `RpcStatus::ok()`. */
  function RpcStatusOk(): (s: RpcStatus)
    ensures s.status == Ok && s.details.None?
  {
    RpcStatus(Ok, None)
  }

  /** `BatchContext::rpc_status`: details are read only for a non-Ok code. */
  function RpcStatusOf(c: Ctx): (s: RpcStatus)
    ensures s.status == c.statusCode
    ensures s.details.None? <==> c.statusCode == Ok
    ensures s.details.Some? ==> s.details.value == c.details
  {
    RpcStatus(c.statusCode, if c.statusCode == Ok then None else Some(c.details))
  }

  /** The length the native layer reports for the received message;
      `usize::MAX` means that nothing was received. */
  function RecvMessageLength(c: Ctx, w: PointerWidth): nat {
    match c.message
    case None => UsizeMax(w)
    case Some(m) => |m|
  }

  /** `BatchContext::recv_message`: an empty buffer for the sentinel length,
      otherwise a copy of exactly that many bytes of the received message. */
  function RecvMessage(c: Ctx, w: PointerWidth): (b: Bytes)
    ensures RecvMessageLength(c, w) == UsizeMax(w) ==> b == []
    ensures RecvMessageLength(c, w) != UsizeMax(w) ==> |b| == RecvMessageLength(c, w) && Some(b) == c.message
  {
    var len := RecvMessageLength(c, w);
    if len == UsizeMax(w) then []
    else
      var m := c.message.value;
      assert m[..len] == m;
      m[..len]
  }

  /** With no message received the buffer is empty, whatever the width. */
  lemma NothingReceivedIsEmpty(c: Ctx, w: PointerWidth)
    requires c.message.None?
    ensures RecvMessage(c, w) == []
  {
  }
}
