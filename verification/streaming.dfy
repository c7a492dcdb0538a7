/** The read and write state machines every streaming call is built from
    (`StreamingBase` and `SinkBase` in src/call/mod.rs). The receive, send
    and close operations are futures of the abstract kind `Fut`; starting a
    new one is a native submission whose answer is an input. */
module Streaming {
  import opened Wrappers
  import opened Grpc

  /** The read side: the future of the call's terminal close (if the
      stream watches one), the in-flight receive, and the stale flag. */
  datatype StreamingBase = StreamingBase(closeF: Option<Fut<Bytes>>, msgF: Option<Fut<Bytes>>, stale: bool)

  /** `StreamingBase::new`: no receive in flight, not stale. */
  function NewStream(closeF: Option<Fut<Bytes>>): (b: StreamingBase)
    ensures b.closeF == closeF && b.msgF.None? && !b.stale
  {
    StreamingBase(closeF, None, false)
  }

  /** The result of one phase of a poll: either the poll returns here, or
      it goes on (remembering whether a new receive must be started). */
  datatype Stage = Done(base: StreamingBase, out: Poll<Option<Bytes>>) | Next(base: StreamingBase, repoll: bool)

  /** First phase of `StreamingBase::poll`: poll the in-flight receive. */
  function PollMsg(b: StreamingBase, skip: bool): (s: Stage)
    requires !b.stale
    ensures b.msgF.None? ==> s == Next(b, true)
    ensures s.base.closeF == b.closeF
    ensures s.Next? ==> !s.base.stale
    // a received message is surfaced as is; an empty one ends the stream
    ensures b.msgF == Some(Resolved([])) ==> s == Done(b.(msgF := Some(Failed(FutureStale)), stale := true), Success(Ready(None)))
    ensures b.msgF.Some? && b.msgF.value.Resolved? && |b.msgF.value.value| > 0 ==>
              s == Done(b.(msgF := Some(Failed(FutureStale))), Success(Ready(Some(b.msgF.value.value))))
    // a stale receive asks for a new one; another error is returned
    ensures b.msgF == Some(Failed(FutureStale)) ==> s == Next(b, true)
    ensures b.msgF.Some? && b.msgF.value.Failed? && b.msgF.value.error != FutureStale ==>
              s == Done(b.(msgF := Some(Failed(FutureStale))), Failure(b.msgF.value.error))
    // a pending receive returns at once when the close check is skipped
    ensures b.msgF == Some(Pending) ==> s == if skip then Done(b, Success(NotReady)) else Next(b, false)
  {
    match b.msgF
    case None => Next(b, true)
    case Some(f) =>
      var (f', p) := PollFut(f);
      var b' := b.(msgF := Some(f'));
      if p == Success(NotReady) then
        if skip then Done(b', Success(NotReady)) else Next(b', false)
      else if p == Failure(FutureStale) then Next(b', true)
      else if p.Failure? then Done(b', Failure(p.error))
      else if |p.value.value| == 0 then Done(b'.(stale := true), Success(Ready(None)))
      else Done(b', Success(Ready(Some(p.value.value))))
  }

  /** Second phase: poll the close future, if there is one. Its completion,
      with a value or with an error, ends the stream. */
  function PollClose(b: StreamingBase, repoll: bool): (s: Stage)
    requires !b.stale
    ensures s.base.msgF == b.msgF
    ensures s.Next? ==> s == Next(b, repoll)
    ensures (b.closeF.None? || b.closeF == Some(Pending)) <==> s.Next?
    ensures b.closeF.Some? && b.closeF.value.Resolved? ==>
              s == Done(b.(closeF := Some(Failed(FutureStale)), stale := true), Success(Ready(None)))
    ensures b.closeF.Some? && b.closeF.value.Failed? ==>
              s == Done(b.(closeF := Some(Failed(FutureStale)), stale := true), Failure(b.closeF.value.error))
  {
    match b.closeF
    case None => Next(b, repoll)
    case Some(f) =>
      var (f', p) := PollFut(f);
      if p == Success(NotReady) then Next(b, repoll)
      else if p.Failure? then Done(b.(closeF := Some(f'), stale := true), Failure(p.error))
      else Done(b.(closeF := Some(f'), stale := true), Success(Ready(None)))
  }

  /** What one call of `StreamingBase::poll` returns, and how many receives
      it started. */
  datatype StreamPoll = StreamPoll(base: StreamingBase, out: Poll<Option<Bytes>>, started: nat)

  /** `StreamingBase::poll`. Each time a new receive must be started, the
      next element of `starts` is the native layer's answer: a refusal, or
      the new receive future. The poll is recursive (a fresh receive that
      reports stale is replaced again), so it is defined for as many
      restarts as `starts` supplies; `None` means it needed more. */
  function PollStream(b: StreamingBase, skip: bool, starts: seq<Result<Fut<Bytes>, Error>>): (r: Option<StreamPoll>)
    // a stale stream only ever reports stale, and starts nothing
    ensures b.stale ==> r == Some(StreamPoll(b, Failure(FutureStale), 0))
    ensures r.Some? ==> r.value.base.closeF.None? == b.closeF.None?
    ensures r.Some? ==> r.value.started <= |starts|
    // a stream turns stale exactly when it reports its end, or its close future's error
    ensures r.Some? && !b.stale && r.value.base.stale ==>
              r.value.out == Success(Ready(None)) || (r.value.out.Failure? && b.closeF.Some? && b.closeF.value.Failed?)
    ensures r.Some? && r.value.out == Success(Ready(None)) ==> r.value.base.stale
    ensures r.Some? && r.value.out.Success? && r.value.out.value.Ready? && r.value.out.value.value.Some? ==>
              |r.value.out.value.value.value| > 0 && !r.value.base.stale
    // a new receive is started only if none is in flight or the one in flight is stale
    ensures r.Some? && r.value.started > 0 ==> b.msgF.None? || b.msgF == Some(Failed(FutureStale))
    ensures r.Some? && r.value.started > 0 ==> !b.stale && (b.closeF.None? || b.closeF == Some(Pending))
    // a pending receive is never replaced
    ensures b.msgF == Some(Pending) ==> r.Some? && r.value.started == 0
    decreases |starts|
  {
    if b.stale then Some(StreamPoll(b, Failure(FutureStale), 0))
    else
      match PollMsg(b, skip)
      case Done(b1, out) => Some(StreamPoll(b1, out, 0))
      case Next(b1, repoll) =>
        match PollClose(b1, repoll)
        case Done(b2, out) => Some(StreamPoll(b2, out, 0))
        case Next(b2, _) =>
          if !repoll then Some(StreamPoll(b2, Success(NotReady), 0))
          else if |starts| == 0 then None
          else
            match starts[0]
            case Failure(e) => Some(StreamPoll(b2.(msgF := None), Failure(e), 1))
            case Success(f) =>
              match PollStream(b2.(msgF := Some(f)), true, starts[1..])
              case None => None
              case Some(p) => Some(p.(started := p.started + 1))
  }

  /** The stream's close future completing first ends the stream even while
      a receive is still pending: the pending message is not drained. */
  lemma CloseBeforeMessageEndsStream(closeValue: Bytes, starts: seq<Result<Fut<Bytes>, Error>>)
    ensures var b := StreamingBase(Some(Resolved(closeValue)), Some(Pending), false);
            PollStream(b, false, starts) ==
              Some(StreamPoll(b.(closeF := Some(Failed(FutureStale)), stale := true), Success(Ready(None)), 0))
  {
  }

  /** What may happen to a stream between polls. */
  datatype StreamEvent =
    | PollEvent(skip: bool, starts: seq<Result<Fut<Bytes>, Error>>)
    | MessageArrives(msgOutcome: Result<Bytes, Error>)
    | CloseArrives(closeOutcome: Result<Bytes, Error>)

  function CompleteOpt(f: Option<Fut<Bytes>>, outcome: Result<Bytes, Error>): Option<Fut<Bytes>> {
    if f.Some? then Some(Complete(f.value, outcome)) else f
  }

  /** Runs a stream through events, collecting what its polls return;
      `None` when a poll needed more restarts than its event supplied. */
  function RunStream(b: StreamingBase, es: seq<StreamEvent>): (r: Option<(StreamingBase, seq<Poll<Option<Bytes>>>)>)
    ensures b.stale && r.Some? ==> r.value.0.stale
    decreases |es|
  {
    if |es| == 0 then Some((b, []))
    else
      match es[0]
      case MessageArrives(o) => RunStream(b.(msgF := CompleteOpt(b.msgF, o)), es[1..])
      case CloseArrives(o) => RunStream(b.(closeF := CompleteOpt(b.closeF, o)), es[1..])
      case PollEvent(skip, starts) =>
        match PollStream(b, skip, starts)
        case None => None
        case Some(p) =>
          match RunStream(p.base, es[1..])
          case None => None
          case Some(rest) => Some((rest.0, [p.out] + rest.1))
  }

  /** Once stale, a stream stays stale whatever happens to its futures, and
      every later poll returns `FutureStale`. */
  lemma {:induction false} StaleIsForever(b: StreamingBase, es: seq<StreamEvent>)
    requires b.stale
    ensures RunStream(b, es).Some?
    ensures forall i :: 0 <= i < |RunStream(b, es).value.1| ==> RunStream(b, es).value.1[i] == Failure(FutureStale)
    decreases |es|
  {
    if |es| > 0 {
      match es[0] {
        case MessageArrives(o) =>
          StaleIsForever(b.(msgF := CompleteOpt(b.msgF, o)), es[1..]);
        case CloseArrives(o) =>
          StaleIsForever(b.(closeF := CompleteOpt(b.closeF, o)), es[1..]);
        case PollEvent(skip, starts) =>
          StaleIsForever(b, es[1..]);
      }
    }
  }

  /** The write side: the in-flight write, the close (half-close or final
      status) future, the reused buffer, the write flags and whether the
      next write still carries the initial metadata. */
  datatype SinkBase = SinkBase(writeF: Option<Fut<Bytes>>, closeF: Option<Fut<Bytes>>, buf: Bytes, flags: nat, sendMetadata: bool)

  /** `SinkBase::new` of src/call/mod.rs (two arguments). */
  function NewSink(flags: nat, sendMetadata: bool): (s: SinkBase)
    ensures s.writeF.None? && s.closeF.None? && s.buf == []
    ensures s.flags == flags && s.sendMetadata == sendMetadata
  {
    SinkBase(None, None, [], flags, sendMetadata)
  }

  /** `SinkBase::poll_complete`: ready once no write is in flight. */
  function PollComplete(s: SinkBase): (r: (SinkBase, Poll<()>))
    ensures r.1 == Success(Ready(())) <==> s.writeF.None? || s.writeF.value.Resolved?
    ensures r.1 == Success(Ready(())) ==> r.0 == s.(writeF := None)
    ensures r.1 == Success(NotReady) <==> s.writeF == Some(Pending)
    ensures r.1 == Success(NotReady) ==> r.0 == s
    ensures r.1.Failure? <==> s.writeF.Some? && s.writeF.value.Failed?
    ensures r.1.Failure? ==> r.1.error == s.writeF.value.error && r.0 == s.(writeF := Some(Failed(FutureStale)))
  {
    match s.writeF
    case None => (s, Success(Ready(())))
    case Some(f) =>
      var (f', p) := PollFut(f);
      if p.Failure? then (s.(writeF := Some(f')), Failure(p.error))
      else if p.value.NotReady? then (s, Success(NotReady))
      else (s.(writeF := None), Success(Ready(())))
  }

  /** One step of a sink: its new state, what it returned, and the native
      operation it submitted successfully, if any. */
  datatype SinkStep<T> = SinkStep(sink: SinkBase, out: Result<T, Error>, issued: Option<NativeOp>)

  /** The part of `start_send` after the in-flight write has cleared:
      refill the buffer and submit the write. A submitted write is
      pending until the native layer completes it. */
  function Fill(s: SinkBase, fill: Result<Bytes, Error>, start: CallCode): (r: SinkStep<bool>)
    requires s.writeF.None?
    ensures r.issued.Some? <==> fill.Success? && start == CallOk
    ensures r.issued.Some? ==> r.issued.value == SendMessage(fill.value, s.flags, s.sendMetadata)
    ensures r.issued.Some? ==> r.out == Success(true) && r.sink.writeF == Some(Pending) && !r.sink.sendMetadata
    ensures r.issued.None? ==> r.out.Failure? && r.sink.writeF.None? && r.sink.sendMetadata == s.sendMetadata
    ensures fill.Failure? ==> r.out == Failure(fill.error)
    ensures fill.Success? && start != CallOk ==> r.out == Failure(CallFailure(start))
    ensures r.sink.closeF == s.closeF && r.sink.flags == s.flags
  {
    match fill
    case Failure(e) => SinkStep(s.(buf := []), Failure(e), None)
    case Success(bytes) =>
      if start != CallOk then SinkStep(s.(buf := bytes), Failure(CallFailure(start)), None)
      else
        SinkStep(s.(buf := bytes, writeF := Some(Pending), sendMetadata := false), Success(true),
                 Some(SendMessage(bytes, s.flags, s.sendMetadata)))
  }

  /** `SinkBase::start_send`. `fill` is what serialising the item into the
      buffer produced and `start` the native answer to the write. */
  function StartSend(s: SinkBase, fill: Result<Bytes, Error>, start: CallCode): (r: SinkStep<bool>)
    // a write still in flight: nothing is started and the sink is unchanged
    ensures s.writeF == Some(Pending) ==> r == SinkStep(s, Success(false), None)
    // a write is started only once the previous one has completed
    ensures r.issued.Some? ==> s.writeF.None? || s.writeF.value.Resolved?
    ensures r.issued.Some? ==> fill.Success? && r.issued.value == SendMessage(fill.value, s.flags, s.sendMetadata)
    ensures r.issued.Some? ==> r.out == Success(true) && r.sink.writeF == Some(Pending) && !r.sink.sendMetadata
    ensures r.issued.None? ==> r.sink.sendMetadata == s.sendMetadata
    ensures (s.writeF.None? || s.writeF.value.Resolved?) ==> (r.issued.Some? <==> fill.Success? && start == CallOk)
    ensures s.writeF.Some? && s.writeF.value.Failed? ==> r.out == Failure(s.writeF.value.error) && r.issued.None?
    ensures r.sink.closeF == s.closeF && r.sink.flags == s.flags
  {
    if s.writeF.Some? then
      var (s1, p) := PollComplete(s);
      if p.Failure? then SinkStep(s1, Failure(p.error), None)
      else if s1.writeF.Some? then SinkStep(s1, Success(false), None)
      else Fill(s1, fill, start)
    else Fill(s, fill, start)
  }

  /** Polls a submitted close future; it is stale once it has completed. */
  function PollCloseFuture(s: SinkBase): (r: SinkStep<Async<()>>)
    requires s.closeF.Some?
    ensures r.issued.None? && r.sink == s.(closeF := Some(PollFut(s.closeF.value).0))
  {
    var (f', p) := PollFut(s.closeF.value);
    var s1 := s.(closeF := Some(f'));
    match p
    case Failure(e) => SinkStep(s1, Failure(e), None)
    case Success(NotReady) => SinkStep(s1, Success(NotReady), None)
    case Success(Ready(_)) => SinkStep(s1, Success(Ready(())), None)
  }

  /** `SinkBase::close`: flush the in-flight write, then submit the close
      once (`start` is the native answer) and poll its future. A future
      submitted in this call is polled at once; `firstPoll` is the state the
      native layer has brought it to by then. */
  function Close(s: SinkBase, start: CallCode, firstPoll: Fut<Bytes>): (r: SinkStep<Async<()>>)
    // the close is submitted at most once, and only after the write cleared
    ensures r.issued.Some? ==> r.issued.value == SendCloseFromClient && s.closeF.None?
    ensures r.issued.Some? ==> s.writeF.None? || s.writeF.value.Resolved?
    ensures s.closeF.None? && s.writeF == Some(Pending) ==> r == SinkStep(s, Success(NotReady), None)
    ensures s.closeF.None? && (s.writeF.None? || s.writeF.value.Resolved?) ==> (r.issued.Some? <==> start == CallOk)
    ensures s.closeF.Some? ==> r.issued.None? && r.sink.closeF.Some? && r.sink.writeF == s.writeF
    ensures s.closeF.Some? && s.closeF.value.Resolved? ==> r.out == Success(Ready(())) && r.sink.closeF == Some(Failed(FutureStale))
    // once submitted, close waits for its future and reports its error
    ensures s.closeF == Some(Pending) ==> r == SinkStep(s, Success(NotReady), None)
    ensures s.closeF.Some? && s.closeF.value.Failed? ==> r.out == Failure(s.closeF.value.error) && r.sink.closeF == Some(Failed(FutureStale))
    // before submission: a failed write or a refused submission is reported
    ensures s.closeF.None? && s.writeF.Some? && s.writeF.value.Failed? ==>
              r.out == Failure(s.writeF.value.error) && r.sink.writeF == Some(Failed(FutureStale)) && r.sink.closeF.None?
    ensures s.closeF.None? && (s.writeF.None? || s.writeF.value.Resolved?) && start != CallOk ==>
              r.out == Failure(CallFailure(start)) && r.sink.closeF.None? && r.sink.writeF.None?
    // the future submitted in this call is polled at once and may already have completed
    ensures r.issued.Some? ==> r.sink.writeF.None?
    ensures r.issued.Some? && firstPoll.Pending? ==> r.out == Success(NotReady) && r.sink.closeF == Some(Pending)
    ensures r.issued.Some? && firstPoll.Resolved? ==> r.out == Success(Ready(())) && r.sink.closeF == Some(Failed(FutureStale))
    ensures r.issued.Some? && firstPoll.Failed? ==> r.out == Failure(firstPoll.error) && r.sink.closeF == Some(Failed(FutureStale))
    ensures r.sink.sendMetadata == s.sendMetadata && r.sink.flags == s.flags
    ensures r.sink.writeF.None? || r.sink.writeF == s.writeF || r.sink.writeF == Some(Failed(FutureStale))
  {
    if s.closeF.None? then
      var (s1, p) := PollComplete(s);
      if p.Failure? then SinkStep(s1, Failure(p.error), None)
      else if p.value.NotReady? then SinkStep(s1, Success(NotReady), None)
      else if start != CallOk then SinkStep(s1, Failure(CallFailure(start)), None)
      else
        var st := PollCloseFuture(s1.(closeF := Some(firstPoll)));
        st.(issued := Some(SendCloseFromClient))
    else PollCloseFuture(s)
  }

  /** A close whose future the native layer has already completed when it
      is first polled finishes in the call that submits it. */
  lemma CloseCanFinishAtSubmission(s: SinkBase, done: Bytes)
    requires s.closeF.None? && (s.writeF.None? || s.writeF.value.Resolved?)
    ensures Close(s, CallOk, Resolved(done)) == SinkStep(s.(writeF := None, closeF := Some(Failed(FutureStale))), Success(Ready(())), Some(SendCloseFromClient))
  {
  }

  /** What the owner of a sink may do, and what the native layer may
      complete, between steps. */
  datatype SinkEvent =
    | Send(fill: Result<Bytes, Error>, sendStart: CallCode)
    | Flush
    | CloseEvent(closeStart: CallCode, closeFirstPoll: Fut<Bytes>)
    | WriteArrives(writeOutcome: Result<Bytes, Error>)
    | CloseDone(closeOutcome: Result<Bytes, Error>)

  /** One event applied to a sink: its new state and the operation it
      submitted, if any. */
  function SinkNext(s: SinkBase, e: SinkEvent): (r: (SinkBase, Option<NativeOp>))
    ensures r.1.Some? ==> r.1.value.SendMessage? || r.1.value == SendCloseFromClient
    ensures r.1 == Some(SendCloseFromClient) ==> s.closeF.None?
    ensures r.0.closeF.None? <==> s.closeF.None? && r.1 != Some(SendCloseFromClient)
    ensures r.1.Some? && r.1.value.SendMessage? ==> r.1.value.initialMetadata == s.sendMetadata && !r.0.sendMetadata
    ensures !(r.1.Some? && r.1.value.SendMessage?) ==> r.0.sendMetadata == s.sendMetadata
  {
    match e
    case Send(fill, code) => var st := StartSend(s, fill, code); (st.sink, st.issued)
    case Flush => (PollComplete(s).0, None)
    case CloseEvent(code, firstPoll) => var st := Close(s, code, firstPoll); (st.sink, st.issued)
    case WriteArrives(o) => (s.(writeF := if s.writeF.Some? then Some(Complete(s.writeF.value, o)) else None), None)
    case CloseDone(o) => (s.(closeF := if s.closeF.Some? then Some(Complete(s.closeF.value, o)) else None), None)
  }

  /** Runs a sink through events, collecting the operations it submitted. */
  function RunSink(s: SinkBase, es: seq<SinkEvent>): (r: (SinkBase, seq<NativeOp>))
    decreases |es|
  {
    if |es| == 0 then (s, [])
    else
      var (s', op) := SinkNext(s, es[0]);
      var rest := RunSink(s', es[1..]);
      (rest.0, (if op.Some? then [op.value] else []) + rest.1)
  }

  function Writes(ops: seq<NativeOp>): nat {
    if |ops| == 0 then 0 else (if ops[0].SendMessage? then 1 else 0) + Writes(ops[1..])
  }

  function Closes(ops: seq<NativeOp>): nat {
    if |ops| == 0 then 0 else (if ops[0].SendCloseFromClient? then 1 else 0) + Closes(ops[1..])
  }

  lemma {:induction false} CountsSplit(a: seq<NativeOp>, b: seq<NativeOp>)
    ensures Writes(a + b) == Writes(a) + Writes(b)
    ensures Closes(a + b) == Closes(a) + Closes(b)
    decreases |a|
  {
    if |a| > 0 {
      assert (a + b)[0] == a[0];
      assert (a + b)[1..] == a[1..] + b;
      CountsSplit(a[1..], b);
    } else {
      assert a + b == b;
    }
  }

  /** A sink submits only writes and closes, and the close at most once:
      never if it already had one. */
  lemma {:induction false} SinkClosesAtMostOnce(s: SinkBase, es: seq<SinkEvent>)
    ensures forall i :: 0 <= i < |RunSink(s, es).1| ==>
              RunSink(s, es).1[i].SendMessage? || RunSink(s, es).1[i] == SendCloseFromClient
    ensures Closes(RunSink(s, es).1) <= (if s.closeF.None? then 1 else 0)
    ensures RunSink(s, es).0.closeF.None? <==> s.closeF.None? && Closes(RunSink(s, es).1) == 0
    decreases |es|
  {
    if |es| > 0 {
      var (s', op) := SinkNext(s, es[0]);
      SinkClosesAtMostOnce(s', es[1..]);
      var head := if op.Some? then [op.value] else [];
      CountsSplit(head, RunSink(s', es[1..]).1);
    }
  }

  /** The initial metadata travels with the first write a sink submits and
      with no other. */
  lemma {:induction false} MetadataOnFirstWriteOnly(s: SinkBase, es: seq<SinkEvent>)
    ensures forall i :: 0 <= i < |RunSink(s, es).1| && RunSink(s, es).1[i].SendMessage? ==>
              (RunSink(s, es).1[i].initialMetadata <==> s.sendMetadata && Writes(RunSink(s, es).1[..i]) == 0)
    ensures RunSink(s, es).0.sendMetadata <==> s.sendMetadata && Writes(RunSink(s, es).1) == 0
    decreases |es|
  {
    if |es| > 0 {
      var (s', op) := SinkNext(s, es[0]);
      MetadataOnFirstWriteOnly(s', es[1..]);
      var head := if op.Some? then [op.value] else [];
      var rest := RunSink(s', es[1..]).1;
      var ops := head + rest;
      assert RunSink(s, es).1 == ops;
      CountsSplit(head, rest);
      forall i | 0 <= i < |ops| && ops[i].SendMessage?
        ensures ops[i].initialMetadata <==> s.sendMetadata && Writes(ops[..i]) == 0
      {
        if i >= |head| {
          assert ops[i] == rest[i - |head|];
          assert ops[..i] == head + rest[..i - |head|];
          CountsSplit(head, rest[..i - |head|]);
        } else {
          assert ops[..i] == [];
        }
      }
    }
  }
}
