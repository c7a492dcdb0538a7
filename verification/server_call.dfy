/** The server side of a call (src/call/server.rs): request dispatch, the
    request stream, the unary and streaming response sinks, and the
    `execute_*` helpers that accept a call and hand it to a handler. The
    shared call state (its `finished` flag and `poll_finish`) is not part
    of this model: what it answers enters as a parameter. */
module ServerCall {
  import opened Wrappers
  import opened Grpc
  import opened BatchContext
  import opened Streaming

  /** What happens to a request that has just arrived. */
  datatype Dispatch =
    | Declined                                // handed back: the payload must be read first
    | Execute(methodType: MethodType)         // the handler runs now, with an empty payload
    | NoHandler                               // answered with `Unimplemented`

  /** `RequestContext::handle_stream_req`; `handler` is the method type of
      the handler registered under the request's method name, if any. */
  function HandleStreamReq(handler: Option<MethodType>): (d: Dispatch)
    ensures d == Declined <==> handler == Some(Unary) || handler == Some(ServerStreaming)
    ensures d == NoHandler <==> handler.None?
    ensures d.Execute? ==> handler == Some(d.methodType)
  {
    match handler
    case None => NoHandler
    case Some(mt) => if mt == Unary || mt == ServerStreaming then Declined else Execute(mt)
  }

  /** What becomes of a unary request once its payload read completed. */
  datatype UnaryDispatch =
    | MissingHandler                          // `unwrap` on no handler: a panic
    | RunHandler(payload: Bytes)
    | AbortCall(abortStatus: RpcStatus)

  /** `UnaryRequestContext::handle`: the handler is looked up (and must
      exist) before the payload is examined. */
  function HandleUnary(handler: Option<MethodType>, data: Option<Bytes>): (d: UnaryDispatch)
    ensures handler.None? <==> d == MissingHandler
    ensures handler.Some? && data.Some? ==> d == RunHandler(data.value)
    ensures handler.Some? && data.None? ==> d == AbortCall(RpcStatus(Internal, Some("No payload")))
  {
    if handler.None? then MissingHandler
    else if data.Some? then RunHandler(data.value)
    else AbortCall(RpcStatus(Internal, Some("No payload")))
  }

  /** Every request with a registered handler is run by exactly one of the
      two paths: at once when its requests stream, or once its single
      request payload arrived when it is unary on the request side. */
  lemma EachHandlerRunsOnce(mt: MethodType, data: Bytes)
    ensures HandleStreamReq(Some(mt)) == Declined <==> mt == Unary || mt == ServerStreaming
    ensures HandleStreamReq(Some(mt)) == Declined ==> HandleUnary(Some(mt), Some(data)) == RunHandler(data)
    ensures HandleStreamReq(Some(mt)) != Declined ==> HandleStreamReq(Some(mt)) == Execute(mt)
  {
  }

  /** `RequestStream::poll`. `alive` is what `check_alive` on the shared
      call answered, `starts` the native answers to new receives and `de`
      the message deserialiser. The base has no close future of its own. */
  function PollRequestStream<T>(alive: Result<(), Error>, base: StreamingBase, starts: seq<Result<Fut<Bytes>, Error>>,
                                de: Bytes -> Result<T, Error>): (r: Option<(StreamingBase, Poll<Option<T>>)>)
    // a finished call fails fast and reads nothing
    ensures alive.Failure? ==> r == Some((base, Failure(alive.error)))
    ensures alive.Success? ==> (r.Some? <==> PollStream(base, false, starts).Some?)
    ensures alive.Success? && r.Some? ==> r.value.0 == PollStream(base, false, starts).value.base
    // each message is passed through the deserialiser, whose error ends the poll
    ensures alive.Success? && r.Some? ==>
              var out := PollStream(base, false, starts).value.out;
              r.value.1 == match out
                           case Failure(e) => Failure(e)
                           case Success(NotReady) => Success(NotReady)
                           case Success(Ready(None)) => Success(Ready(None))
                           case Success(Ready(Some(data))) =>
                             if de(data).Success? then Success(Ready(Some(de(data).value))) else Failure(de(data).error)
  {
    if alive.Failure? then Some((base, Failure(alive.error)))
    else
      match PollStream(base, false, starts)
      case None => None
      case Some(p) =>
        var out: Poll<Option<T>> :=
          match p.out
          case Failure(e) => Failure(e)
          case Success(NotReady) => Success(NotReady)
          case Success(Ready(None)) => Success(Ready(None))
          case Success(Ready(Some(data))) =>
            match de(data)
            case Success(msg) => Success(Ready(Some(msg)))
            case Failure(e) => Failure(e);
        Some((p.base, out))
  }

  /** The future a unary sink returns once it sent its status: the status
      batch (if it was accepted) or the submission error. */
  datatype UnarySinkResult = UnarySinkResult(cqF: Option<Fut<Bytes>>, err: Option<Error>)

  /** The unary sink macro's `complete`: submit the status with the
      serialised payload, asking for empty initial metadata; the write
      flags of a unary sink are always 0. */
  function UnaryComplete(status: RpcStatus, payload: Option<Bytes>, code: CallCode): (r: (UnarySinkResult, Option<NativeOp>))
    ensures code == CallOk ==> r == (UnarySinkResult(Some(Pending), None), Some(SendStatusFromServer(status, true, payload, 0)))
    ensures code != CallOk ==> r == (UnarySinkResult(None, Some(CallFailure(code))), None)
  {
    if code == CallOk then (UnarySinkResult(Some(Pending), None), Some(SendStatusFromServer(status, true, payload, 0)))
    else (UnarySinkResult(None, Some(CallFailure(code))), None)
  }

  /** `success`: status Ok with the serialised response. */
  function UnarySuccess(response: Bytes, code: CallCode): (r: (UnarySinkResult, Option<NativeOp>))
    ensures code == CallOk ==> r.1 == Some(SendStatusFromServer(RpcStatus(Ok, None), true, Some(response), 0))
    ensures code != CallOk ==> r.1.None? && r.0.err == Some(CallFailure(code))
  {
    UnaryComplete(RpcStatusOk(), Some(response), code)
  }

  /** `fail`: the given status and no payload. */
  function UnaryFail(status: RpcStatus, code: CallCode): (r: (UnarySinkResult, Option<NativeOp>))
    ensures code == CallOk ==> r.1 == Some(SendStatusFromServer(status, true, None, 0))
    ensures code != CallOk ==> r.1.None? && r.0.err == Some(CallFailure(code))
  {
    UnaryComplete(status, None, code)
  }

  /** Polling the unary sink's result. `finish` is what `poll_finish` on
      the shared call answers; it is asked only once the status batch has
      completed. A submission error is reported once. */
  function PollUnaryResult(r: UnarySinkResult, finish: Poll<()>): (p: (UnarySinkResult, Poll<()>))
    ensures r.err.Some? ==> p == (r.(err := None), Failure(r.err.value))
    ensures r.err.None? && r.cqF == Some(Pending) ==> p == (r, Success(NotReady))
    ensures r.err.None? && r.cqF.Some? && r.cqF.value.Failed? ==>
              p == (r.(cqF := Some(Failed(FutureStale))), Failure(r.cqF.value.error))
    // ready only once the status was sent and the call has finished
    ensures p.1 == Success(Ready(())) <==>
              r.err.None? && (r.cqF.None? || r.cqF.value.Resolved?) && finish == Success(Ready(()))
    ensures r.err.None? && (r.cqF.None? || r.cqF.value.Resolved?) ==> p == (UnarySinkResult(None, None), finish)
  {
    if r.err.Some? then (r.(err := None), Failure(r.err.value))
    else if r.cqF.Some? then
      var (f', q) := PollFut(r.cqF.value);
      if q.Failure? then (r.(cqF := Some(f')), Failure(q.error))
      else if q.value.NotReady? then (r, Success(NotReady))
      else (r.(cqF := None), finish)
    else (r, finish)
  }

  /** The unary result completes what `complete` submitted: an accepted
      status batch keeps the result pending until the native layer
      completes it, then reports the batch error or the call's finish; a
      refused one reports the refusal once and then the call's finish. */
  lemma UnaryResultFollowsSubmission(status: RpcStatus, payload: Option<Bytes>, code: CallCode,
                                     outcome: Result<Bytes, Error>, finish: Poll<()>)
    ensures var (res, _) := UnaryComplete(status, payload, code);
            code == CallOk ==>
              && PollUnaryResult(res, finish) == (res, Success(NotReady))
              && PollUnaryResult(res.(cqF := Some(Complete(Pending, outcome))), finish).1
                 == (if outcome.Failure? then Failure(outcome.error) else finish)
    ensures var (res, _) := UnaryComplete(status, payload, code);
            code != CallOk ==>
              && PollUnaryResult(res, finish) == (UnarySinkResult(None, None), Failure(CallFailure(code)))
              && PollUnaryResult(PollUnaryResult(res, finish).0, finish).1 == finish
  {
    var (res, _) := UnaryComplete(status, payload, code);
    if code == CallOk {
      var done := res.(cqF := Some(Complete(Pending, outcome)));
      assert done.cqF.value == (if outcome.Failure? then Failed(outcome.error) else Resolved(outcome.value));
    }
  }

  /** A streaming response sink: the write machine, the status batch once
      `close` submitted it, the status to send, and whether that batch has
      completed. */
  datatype StreamSink = StreamSink(base: SinkBase, flushF: Option<Fut<Bytes>>, status: RpcStatus, flushed: bool)

  /** The stream sink macro's `new`: the first write carries the initial
      metadata (`SinkBase::new(true)`; this revision gives the flags per
      item, so the base's own flags are unused) and the status is Ok. */
  function NewStreamSink(): (s: StreamSink)
    ensures s.base.writeF.None? && s.base.closeF.None? && s.base.sendMetadata
    ensures s.flushF.None? && !s.flushed && s.status == RpcStatus(Ok, None)
  {
    StreamSink(NewSink(0, true), None, RpcStatusOk(), false)
  }

  /** `set_status`: allowed only before the status is submitted (`None`
      is the failed assertion). */
  function SetStatus(s: StreamSink, status: RpcStatus): (r: Option<StreamSink>)
    ensures r.None? <==> s.flushF.Some?
    ensures r.Some? ==> r.value == s.(status := status)
  {
    if s.flushF.Some? then None else Some(s.(status := status))
  }

  /** The future a failed stream sink returns. */
  datatype SinkFailure = SinkFailure(failF: Option<Fut<Bytes>>, err: Option<Error>)

  /** `fail`: allowed only before `close` submitted a status (`None` is the
      failed assertion); sends the given status, no payload, and initial
      metadata only if no write has carried it yet. */
  function Fail(s: StreamSink, status: RpcStatus, code: CallCode): (r: Option<(SinkFailure, Option<NativeOp>)>)
    ensures r.None? <==> s.flushF.Some?
    ensures r.Some? && code == CallOk ==>
              r.value == (SinkFailure(Some(Pending), None), Some(SendStatusFromServer(status, s.base.sendMetadata, None, 0)))
    ensures r.Some? && code != CallOk ==> r.value == (SinkFailure(None, Some(CallFailure(code))), None)
  {
    if s.flushF.Some? then None
    else if code == CallOk then Some((SinkFailure(Some(Pending), None), Some(SendStatusFromServer(status, s.base.sendMetadata, None, 0))))
    else Some((SinkFailure(None, Some(CallFailure(code))), None))
  }

  /** Polling the failure future. `finished` is the shared call's flag and
      `finish` what its `poll_finish` answers (asked only when unfinished). */
  function PollFailure(f: SinkFailure, finished: bool, finish: Poll<()>): (p: (SinkFailure, Poll<()>))
    ensures f.err.Some? ==> p == (f.(err := None), Failure(f.err.value))
    ensures f.err.None? && !finished && finish.Failure? ==> p == (f, finish)
    ensures f.err.None? && f.failF == Some(Pending) && (finished || finish.Success?) ==> p == (f, Success(NotReady))
    ensures f.err.None? && (finished || finish.Success?) && f.failF.Some? && f.failF.value.Failed? ==>
              p == (f.(failF := Some(Failed(FutureStale))), Failure(f.failF.value.error))
    // once the status batch completed, the readiness of the call is reported
    ensures f.err.None? && (finished || finish.Success?) && (f.failF.None? || f.failF.value.Resolved?) ==>
              p == (SinkFailure(None, None), if finished then Success(Ready(())) else finish)
  {
    if f.err.Some? then (f.(err := None), Failure(f.err.value))
    else if !finished && finish.Failure? then (f, finish)
    else
      var readiness: Async<()> := if finished then Ready(()) else finish.value;
      if f.failF.Some? then
        var (f', q) := PollFut(f.failF.value);
        if q.Failure? then (f.(failF := Some(f')), Failure(q.error))
        else if q.value.NotReady? then (f, Success(NotReady))
        else (f.(failF := None), Success(readiness))
      else (f, Success(readiness))
  }

  /** What `start_send` tells the caller: the item was taken, or it is
      handed back because a write is still in flight. */
  datatype SendResult = Accepted | HandedBack

  /** The stream sink's `start_send` for one item with its write flags.
      `finish` is what `poll_finish` answers, `fill` the serialised item and
      `code` the native answer to the write. */
  function StreamStartSend(s: StreamSink, finish: Poll<()>, fill: Result<Bytes, Error>, itemFlags: nat, code: CallCode):
    (r: (StreamSink, Result<SendResult, Error>, Option<NativeOp>))
    // a finished call refuses every item with `RemoteStopped`
    ensures finish == Success(Ready(())) ==> r == (s, Failure(RemoteStopped), None)
    ensures finish.Failure? ==> r == (s, Failure(finish.error), None)
    ensures r.1 == Success(HandedBack) ==> r.2.None? && finish == Success(NotReady)
    ensures finish == Success(NotReady) && s.base.writeF == Some(Pending) ==> r.1 == Success(HandedBack) && r.0 == s.(base := s.base.(flags := itemFlags))
    ensures r.2.Some? ==> (finish == Success(NotReady) && fill.Success? &&
                           r.2.value == SendMessage(fill.value, itemFlags, s.base.sendMetadata) && r.1 == Success(Accepted))
    // an unfinished call with no write in flight hands the item to the base sink
    ensures finish == Success(NotReady) && (s.base.writeF.None? || s.base.writeF.value.Resolved?) ==>
              (r.2.Some? <==> fill.Success? && code == CallOk)
    ensures finish == Success(NotReady) && (s.base.writeF.None? || s.base.writeF.value.Resolved?) && fill.Failure? ==>
              r.1 == Failure(fill.error)
    ensures finish == Success(NotReady) && (s.base.writeF.None? || s.base.writeF.value.Resolved?) && fill.Success? && code != CallOk ==>
              r.1 == Failure(CallFailure(code))
    ensures finish == Success(NotReady) && s.base.writeF.Some? && s.base.writeF.value.Failed? ==>
              r.1 == Failure(s.base.writeF.value.error) && r.2.None?
    ensures r.0.flushF == s.flushF && r.0.status == s.status && r.0.flushed == s.flushed
  {
    if finish.Failure? then (s, Failure(finish.error), None)
    else if finish.value.Ready? then (s, Failure(RemoteStopped), None)
    else
      var st := StartSend(s.base.(flags := itemFlags), fill, code);
      var out: Result<SendResult, Error> :=
        match st.out
        case Failure(e) => Failure(e)
        case Success(b) => Success(if b then Accepted else HandedBack);
      (s.(base := st.sink), out, st.issued)
  }

  /** The sink's invariant: the status has completed only if it was submitted. */
  predicate Flushing(s: StreamSink)
  {
    s.flushed ==> s.flushF.Some?
  }

  /** The stream sink's `close`: flush the in-flight write, submit the
      status once (`code` is the native answer), wait for it, then for the
      call to finish (`finish`). A status batch submitted in this call is
      polled at once; `firstPoll` is the state the native layer has brought
      it to by then. */
  function StreamClose(s: StreamSink, code: CallCode, firstPoll: Fut<Bytes>, finish: Poll<()>): (r: (StreamSink, Poll<()>, Option<NativeOp>))
    // the status goes out once, after the last write completed, with the stored status
    ensures r.2.Some? ==> s.flushF.None? && (s.base.writeF.None? || s.base.writeF.value.Resolved?)
    ensures r.2.Some? ==> r.2.value == SendStatusFromServer(s.status, s.base.sendMetadata, None, 0) && r.0.flushF.Some?
    // the batch submitted in this call is polled at once and may already have completed
    ensures r.2.Some? && !s.flushed && firstPoll.Pending? ==> r.1 == Success(NotReady) && r.0.flushF == Some(Pending) && !r.0.flushed
    ensures r.2.Some? && !s.flushed && firstPoll.Failed? ==>
              r.1 == Failure(firstPoll.error) && r.0.flushF == Some(Failed(FutureStale)) && !r.0.flushed
    ensures r.2.Some? && !s.flushed && firstPoll.Resolved? ==> r.1 == finish && r.0.flushed
    ensures s.flushF.None? && s.base.writeF == Some(Pending) ==> r == (s, Success(NotReady), None)
    ensures s.flushF.None? && (s.base.writeF.None? || s.base.writeF.value.Resolved?) ==> (r.2.Some? <==> code == CallOk)
    ensures s.flushF.Some? ==> r.2.None? && r.0.flushF.Some?
    // finished only once the status batch completed and the call finished
    ensures r.1 == Success(Ready(())) ==> r.0.flushed && finish == Success(Ready(()))
    ensures Flushing(s) ==> Flushing(r.0)
    ensures s.flushed ==> r.0.flushed
    ensures r.0.status == s.status && r.0.base.sendMetadata == s.base.sendMetadata
    ensures s.flushF.Some? ==> r.0.base == s.base
    // the status batch must complete before the sink counts as flushed
    ensures !s.flushed && r.0.flushed ==> (s.flushF.Some? && s.flushF.value.Resolved?) || (r.2.Some? && firstPoll.Resolved?)
    ensures !s.flushed && s.flushF == Some(Pending) ==> r == (s, Success(NotReady), None)
    ensures !s.flushed && s.flushF.Some? && s.flushF.value.Failed? ==>
              r.1 == Failure(s.flushF.value.error) && !r.0.flushed && r.0.flushF == Some(Failed(FutureStale))
    ensures !s.flushed && s.flushF.Some? && s.flushF.value.Resolved? ==> r.0.flushed && r.1 == finish
    ensures s.flushed && s.flushF.Some? ==> r == (s, finish, None)
  {
    var (s1, issued, early) :=
      if s.flushF.Some? then (s, None, None)
      else
        var (b1, p) := PollComplete(s.base);
        if p.Failure? then (s.(base := b1), None, Some(Failure(p.error)))
        else if p.value.NotReady? then (s.(base := b1), None, Some(Success(NotReady)))
        else if code != CallOk then (s.(base := b1), None, Some(Failure(CallFailure(code))))
        else (s.(base := b1, flushF := Some(firstPoll)), Some(SendStatusFromServer(s.status, b1.sendMetadata, None, 0)), None);
    if early.Some? then (s1, early.value, issued)
    else
      var (s2, early2) :=
        if s1.flushed then (s1, None)
        else
          var (f', q) := PollFut(s1.flushF.value);
          if q.Failure? then (s1.(flushF := Some(f')), Some(Failure(q.error)))
          else if q.value.NotReady? then (s1, Some(Success(NotReady)))
          else (s1.(flushF := Some(f'), flushed := true), None);
      if early2.Some? then (s2, early2.value, issued)
      else (s2, finish, issued)
  }

  /** A status batch the native layer has already completed when it is
      first polled flushes the sink in the call that submits it, and close
      then answers with the call's finish. */
  lemma StreamCloseCanFinishAtSubmission(s: StreamSink, done: Bytes, finish: Poll<()>)
    requires s.flushF.None? && !s.flushed && (s.base.writeF.None? || s.base.writeF.value.Resolved?)
    ensures var r := StreamClose(s, CallOk, Resolved(done), finish);
            r.0.flushed && r.1 == finish && r.2 == Some(SendStatusFromServer(s.status, s.base.sendMetadata, None, 0))
  {
  }

  /** What the owner of a stream sink may do, and what the native layer may
      complete, between steps. */
  datatype StreamSinkEvent =
    | SendItem(sendFinish: Poll<()>, fill: Result<Bytes, Error>, itemFlags: nat, sendCode: CallCode)
    | FlushWrites
    | CloseSink(closeCode: CallCode, closeFirstPoll: Fut<Bytes>, closeFinish: Poll<()>)
    | WriteDone(writeOutcome: Result<Bytes, Error>)
    | StatusDone(statusOutcome: Result<Bytes, Error>)

  /** One event applied to a stream sink. */
  function StreamSinkNext(s: StreamSink, e: StreamSinkEvent): (r: (StreamSink, Option<NativeOp>))
    ensures r.1.Some? ==> r.1.value.SendMessage? || r.1.value.SendStatusFromServer?
    ensures r.1.Some? && r.1.value.SendStatusFromServer? ==> s.flushF.None?
    ensures r.0.flushF.None? <==> s.flushF.None? && !(r.1.Some? && r.1.value.SendStatusFromServer?)
  {
    match e
    case SendItem(finish, fill, flags, code) => var (s', _, op) := StreamStartSend(s, finish, fill, flags, code); (s', op)
    case FlushWrites => (s.(base := PollComplete(s.base).0), None)
    case CloseSink(code, firstPoll, finish) => var (s', _, op) := StreamClose(s, code, firstPoll, finish); (s', op)
    case WriteDone(o) => (s.(base := s.base.(writeF := if s.base.writeF.Some? then Some(Complete(s.base.writeF.value, o)) else None)), None)
    case StatusDone(o) => (s.(flushF := if s.flushF.Some? then Some(Complete(s.flushF.value, o)) else None), None)
  }

  /** Runs a stream sink through events, collecting what it submitted. */
  function RunStreamSink(s: StreamSink, es: seq<StreamSinkEvent>): (r: (StreamSink, seq<NativeOp>))
    decreases |es|
  {
    if |es| == 0 then (s, [])
    else
      var (s', op) := StreamSinkNext(s, es[0]);
      var rest := RunStreamSink(s', es[1..]);
      (rest.0, (if op.Some? then [op.value] else []) + rest.1)
  }

  function Statuses(ops: seq<NativeOp>): nat {
    if |ops| == 0 then 0 else (if ops[0].SendStatusFromServer? then 1 else 0) + Statuses(ops[1..])
  }

  lemma {:induction false} StatusesSplit(a: seq<NativeOp>, b: seq<NativeOp>)
    ensures Statuses(a + b) == Statuses(a) + Statuses(b)
    decreases |a|
  {
    if |a| > 0 {
      assert (a + b)[0] == a[0];
      assert (a + b)[1..] == a[1..] + b;
      StatusesSplit(a[1..], b);
    } else {
      assert a + b == b;
    }
  }

  /** A stream sink sends its status at most once, whatever the order of
      sends, flushes, closes and completions. */
  lemma {:induction false} StatusSentAtMostOnce(s: StreamSink, es: seq<StreamSinkEvent>)
    ensures Statuses(RunStreamSink(s, es).1) <= (if s.flushF.None? then 1 else 0)
    ensures RunStreamSink(s, es).0.flushF.None? <==> s.flushF.None? && Statuses(RunStreamSink(s, es).1) == 0
    ensures forall i :: 0 <= i < |RunStreamSink(s, es).1| ==>
              RunStreamSink(s, es).1[i].SendMessage? || RunStreamSink(s, es).1[i].SendStatusFromServer?
    decreases |es|
  {
    if |es| > 0 {
      var (s', op) := StreamSinkNext(s, es[0]);
      StatusSentAtMostOnce(s', es[1..]);
      StatusesSplit(if op.Some? then [op.value] else [], RunStreamSink(s', es[1..]).1);
    }
  }

  /** How `accept_call!` ends: with the call's close future, by returning
      quietly when the queue is shutting down, or in a panic. */
  datatype Accept = AcceptedCall(closeF: Fut<Bytes>) | QuietReturn | AcceptPanic

  /** `accept_call!`: `start` is the answer to `start_server_side`. */
  function AcceptCall(start: Result<Fut<Bytes>, Error>): (a: Accept)
    ensures start.Success? <==> a.AcceptedCall?
    ensures a.AcceptedCall? ==> a.closeF == start.value
    ensures a == QuietReturn <==> start == Failure(QueueShutdown)
  {
    match start
    case Success(f) => AcceptedCall(f)
    case Failure(e) => if e == QueueShutdown then QuietReturn else AcceptPanic
  }

  /** How an `execute_*` helper ends. A handler receives the deserialised
      single request (`None` when it receives a request stream) and a sink
      of its own method type. */
  datatype Execution<P> =
    | Quiet
    | Panic
    | AbortedWith(abortStatus: RpcStatus)
    | HandlerCalled(closeF: Fut<Bytes>, request: Option<P>, sink: MethodType)

  const DeserializeFailure: string := "Failed to deserialize response message: "

  /** Whether a method receives one request deserialised from the payload
      (unary and server streaming) rather than a request stream. */
  predicate TakesPayload(mt: MethodType) {
    mt == Unary || mt == ServerStreaming
  }

  /** The four `execute_*` helpers, selected by method type: accept the
      call, then either deserialise the payload and call the handler with
      it, or call the handler with a request stream. `debug` is the
      error's debug rendering. */
  function ExecuteHandler<P>(mt: MethodType, start: Result<Fut<Bytes>, Error>, de: Bytes -> Result<P, Error>,
                             payload: Bytes, debug: Error -> string): (x: Execution<P>)
    ensures start.Failure? ==> x == (if start.error == QueueShutdown then Quiet else Panic)
    // a payload that does not deserialise aborts the call; the handler never runs
    ensures x.AbortedWith? <==> start.Success? && TakesPayload(mt) && de(payload).Failure?
    ensures x.AbortedWith? ==>
              x.abortStatus == RpcStatus(Internal, Some(DeserializeFailure + debug(de(payload).error)))
    ensures x.HandlerCalled? <==> start.Success? && (TakesPayload(mt) ==> de(payload).Success?)
    ensures x.HandlerCalled? ==> x.closeF == start.value && x.sink == mt
    ensures x.HandlerCalled? ==> x.request == if TakesPayload(mt) then Some(de(payload).value) else None
  {
    match AcceptCall(start)
    case QuietReturn => Quiet
    case AcceptPanic => Panic
    case AcceptedCall(closeF) =>
      if !TakesPayload(mt) then HandlerCalled(closeF, None, mt)
      else
        match de(payload)
        case Failure(e) => AbortedWith(RpcStatus(Internal, Some(DeserializeFailure + debug(e))))
        case Success(request) => HandlerCalled(closeF, Some(request), mt)
  }

  /** `execute_unimplemented`: accept, then abort with `Unimplemented`. */
  function ExecuteUnimplemented(start: Result<Fut<Bytes>, Error>): (x: Execution<()>)
    ensures start.Success? <==> x == AbortedWith(RpcStatus(Unimplemented, None))
    ensures !x.HandlerCalled?
    ensures start.Failure? ==> x == (if start.error == QueueShutdown then Quiet else Panic)
  {
    match AcceptCall(start)
    case QuietReturn => Quiet
    case AcceptPanic => Panic
    case AcceptedCall(_) => AbortedWith(RpcStatus(Unimplemented, None))
  }

  /** The method types that `handle_stream_req` executes are exactly the
      ones that take a request stream, and for them neither the payload nor
      the deserialiser affects the outcome. */
  lemma StreamingRequestIgnoresPayload<P>(mt: MethodType, start: Result<Fut<Bytes>, Error>,
                                          de1: Bytes -> Result<P, Error>, p1: Bytes,
                                          de2: Bytes -> Result<P, Error>, p2: Bytes, debug: Error -> string)
    requires HandleStreamReq(Some(mt)).Execute?
    ensures !TakesPayload(mt)
    ensures ExecuteHandler(mt, start, de1, p1, debug) == ExecuteHandler(mt, start, de2, p2, debug)
  {
  }
}
