/** Server assembly (src/server.rs): the handler table built by
    `ServiceBuilder` and `ServerBuilder`, method lookup, the shutdown flag
    that gates new request slots, and the slots `start` requests. Creating,
    starting and destroying the native server are not modelled. */
module Server {
  import opened Wrappers
  import opened Grpc
  import opened Channel
  import opened Env

  /** `DEFAULT_REQUEST_SLOTS_PER_CQ`. */
  const DefaultRequestSlotsPerCq: nat := 1024

  /** Which `execute_*` helper a handler's boxed callback calls. */
  datatype Callback = CallsUnary | CallsClientStreaming | CallsServerStreaming | CallsDuplex

  /** A registered handler: its method type, the helper its callback
      calls, and (by identity) the user's handler closure it wraps. */
  datatype Handler = Handler(methodType: MethodType, cb: Callback, user: nat)

  /** The helper the callback of each method type must call. */
  function CallbackFor(mt: MethodType): Callback
  {
    match mt
    case Unary => CallsUnary
    case ClientStreaming => CallsClientStreaming
    case ServerStreaming => CallsServerStreaming
    case Duplex => CallsDuplex
  }

  /** Handlers are keyed by the method's full name. */
  type Handlers = map<string, Handler>

  /** Every handler's callback matches its method type. */
  predicate Coherent(hs: Handlers)
  {
    forall name :: name in hs ==> hs[name].cb == CallbackFor(hs[name].methodType)
  }

  datatype ServiceBuilder = ServiceBuilder(handlers: Handlers)

  /** A service: the table its builder collected. */
  datatype Service = Service(handlers: Handlers)

  function NewServiceBuilder(): (b: ServiceBuilder)
    ensures b.handlers == map[] && Coherent(b.handlers)
  {
    ServiceBuilder(map[])
  }

  /** The common body of the `add_*_handler` methods: insert under the
      method's name, replacing any earlier handler of that name. */
  function AddHandler(b: ServiceBuilder, name: string, mt: MethodType, user: nat): (r: ServiceBuilder)
    ensures r.handlers.Keys == b.handlers.Keys + {name}
    ensures r.handlers[name] == Handler(mt, CallbackFor(mt), user)
    ensures forall n :: n in b.handlers && n != name ==> r.handlers[n] == b.handlers[n]
    ensures Coherent(b.handlers) ==> Coherent(r.handlers)
  {
    ServiceBuilder(b.handlers[name := Handler(mt, CallbackFor(mt), user)])
  }

  /** `add_unary_handler`. */
  function AddUnaryHandler(b: ServiceBuilder, name: string, user: nat): (r: ServiceBuilder)
    ensures name in r.handlers && r.handlers[name].methodType == Unary && r.handlers[name].cb == CallsUnary
    ensures r.handlers.Keys == b.handlers.Keys + {name}
  {
    AddHandler(b, name, Unary, user)
  }

  /** `add_client_streaming_handler`. */
  function AddClientStreamingHandler(b: ServiceBuilder, name: string, user: nat): (r: ServiceBuilder)
    ensures name in r.handlers && r.handlers[name].methodType == ClientStreaming && r.handlers[name].cb == CallsClientStreaming
    ensures r.handlers.Keys == b.handlers.Keys + {name}
  {
    AddHandler(b, name, ClientStreaming, user)
  }

  /** `add_server_streaming_handler`. */
  function AddServerStreamingHandler(b: ServiceBuilder, name: string, user: nat): (r: ServiceBuilder)
    ensures name in r.handlers && r.handlers[name].methodType == ServerStreaming && r.handlers[name].cb == CallsServerStreaming
    ensures r.handlers.Keys == b.handlers.Keys + {name}
  {
    AddHandler(b, name, ServerStreaming, user)
  }

  /** `add_duplex_streaming_handler` (the method type spelled `Dulex` in
      this file). */
  function AddDuplexStreamingHandler(b: ServiceBuilder, name: string, user: nat): (r: ServiceBuilder)
    ensures name in r.handlers && r.handlers[name].methodType == Duplex && r.handlers[name].cb == CallsDuplex
    ensures r.handlers.Keys == b.handlers.Keys + {name}
  {
    AddHandler(b, name, Duplex, user)
  }

  /** Adding under a name twice keeps only the second handler. */
  lemma ReAddReplaces(b: ServiceBuilder, name: string, mt1: MethodType, u1: nat, mt2: MethodType, u2: nat)
    ensures AddHandler(AddHandler(b, name, mt1, u1), name, mt2, u2) == AddHandler(b, name, mt2, u2)
  {
    assert AddHandler(AddHandler(b, name, mt1, u1), name, mt2, u2).handlers == AddHandler(b, name, mt2, u2).handlers;
  }

  /** `ServiceBuilder::build`. */
  function BuildService(b: ServiceBuilder): (s: Service)
    ensures s.handlers == b.handlers
  {
    Service(b.handlers)
  }

  /** Everything `ServerBuilder` collects. */
  datatype ServerBuilder = ServerBuilder(addrs: seq<(string, nat)>, args: Option<Options>, slotsPerCq: nat, handlers: Handlers)

  /** `ServerBuilder::new`. */
  function NewServerBuilder(): (b: ServerBuilder)
    ensures b.addrs == [] && b.args.None? && b.handlers == map[]
    ensures b.slotsPerCq == DefaultRequestSlotsPerCq == 1024
  {
    ServerBuilder([], None, DefaultRequestSlotsPerCq, map[])
  }

  /** `bind`: addresses are kept in the order they were bound. */
  function Bind(b: ServerBuilder, host: string, port: nat): (r: ServerBuilder)
    ensures r.addrs == b.addrs + [(host, port)]
    ensures r.args == b.args && r.slotsPerCq == b.slotsPerCq && r.handlers == b.handlers
  {
    b.(addrs := b.addrs + [(host, port)])
  }

  /** `channel_args`: the last arguments given win. */
  function WithChannelArgs(b: ServerBuilder, args: Options): (r: ServerBuilder)
    ensures r.args == Some(args)
    ensures r.addrs == b.addrs && r.slotsPerCq == b.slotsPerCq && r.handlers == b.handlers
  {
    b.(args := Some(args))
  }

  /** `requests_slot_per_cq`. */
  function RequestsSlotPerCq(b: ServerBuilder, slots: nat): (r: ServerBuilder)
    ensures r.slotsPerCq == slots
    ensures r.addrs == b.addrs && r.args == b.args && r.handlers == b.handlers
  {
    b.(slotsPerCq := slots)
  }

  /** `register_service`: the service's handlers are merged in, and on a
      name both define, the service's handler wins. */
  function RegisterService(b: ServerBuilder, s: Service): (r: ServerBuilder)
    ensures r.handlers.Keys == b.handlers.Keys + s.handlers.Keys
    ensures forall n :: n in s.handlers ==> r.handlers[n] == s.handlers[n]
    ensures forall n :: n in b.handlers && n !in s.handlers ==> r.handlers[n] == b.handlers[n]
    ensures Coherent(b.handlers) && Coherent(s.handlers) ==> Coherent(r.handlers)
    ensures r.addrs == b.addrs && r.args == b.args && r.slotsPerCq == b.slotsPerCq
  {
    b.(handlers := b.handlers + s.handlers)
  }

  /** The running server's shared state. */
  datatype Inner = Inner(cqs: seq<nat>, bindAddrs: seq<(string, nat)>, slotsPerCq: nat, shutdown: bool, handlers: Handlers)

  /** The `u32` a bound port becomes (`bind_port as u32` on a C `int`). */
  function PortAsU32(p: int): (u: nat)
    requires -0x8000_0000 <= p < 0x8000_0000
    ensures u < 0x1_0000_0000
    ensures p >= 0 ==> u == p
    ensures p < 0 ==> u == p + 0x1_0000_0000
  {
    if p >= 0 then p else p + 0x1_0000_0000
  }

  /** `ServerBuilder::build`: `ports` holds what the native layer answered
      for each address, in order. The server starts not shut down. */
  function BuildServer(b: ServerBuilder, env: Environment, ports: seq<int>): (s: Inner)
    requires |ports| == |b.addrs|
    requires forall i :: 0 <= i < |ports| ==> -0x8000_0000 <= ports[i] < 0x8000_0000
    ensures !s.shutdown
    ensures s.cqs == env.cqs && s.slotsPerCq == b.slotsPerCq && s.handlers == b.handlers
    ensures |s.bindAddrs| == |b.addrs|
    ensures forall i :: 0 <= i < |b.addrs| ==> s.bindAddrs[i] == (b.addrs[i].0, PortAsU32(ports[i]))
  {
    Inner(env.cqs, seq(|b.addrs|, i requires 0 <= i < |b.addrs| => (b.addrs[i].0, PortAsU32(ports[i]))),
          b.slotsPerCq, false, b.handlers)
  }

  /** `Inner::get_method`: exactly the handler under that name. */
  function GetMethod(s: Inner, name: string): (h: Option<Handler>)
    ensures h.Some? <==> name in s.handlers
    ensures h.Some? ==> h.value == s.handlers[name]
  {
    if name in s.handlers then Some(s.handlers[name]) else None
  }

  /** The method type `handle_stream_req` is given for a name. */
  function MethodTypeOf(s: Inner, name: string): (mt: Option<MethodType>)
    ensures mt.Some? <==> name in s.handlers
    ensures mt.Some? ==> mt.value == s.handlers[name].methodType
  {
    match GetMethod(s, name)
    case None => None
    case Some(h) => Some(h.methodType)
  }

  /** How `request_call` ends. */
  datatype RequestOutcome = Skipped | Requested | RequestPanic

  /** `request_call`: nothing once shut down; otherwise a request slot is
      submitted, and a refused submission is fatal. */
  function RequestCall(s: Inner, code: CallCode): (o: RequestOutcome)
    ensures s.shutdown <==> o == Skipped
    ensures !s.shutdown ==> (o == Requested <==> code == CallOk)
  {
    if s.shutdown then Skipped
    else if code == CallOk then Requested
    else RequestPanic
  }

  /** `Server::shutdown`: sets the flag, after which no slot is requested.
      The shutdown notification goes to the first queue. */
  function Shutdown(s: Inner): (r: (Inner, nat))
    requires |s.cqs| > 0
    ensures r.0 == s.(shutdown := true)
    ensures r.1 == s.cqs[0]
    ensures forall code :: RequestCall(r.0, code) == Skipped
  {
    (s.(shutdown := true), s.cqs[0])
  }

  /** The queues of the request slots `start` submits when none is
      refused: `n` slots for each queue, queue after queue. */
  function SlotsOf(cqs: seq<nat>, n: nat): (r: seq<nat>)
    ensures |r| == |cqs| * n
    ensures forall i :: 0 <= i < |r| ==> r[i] in cqs
  {
    if |cqs| == 0 then []
    else
      var front := cqs[..|cqs| - 1];
      var r := SlotsOf(front, n) + seq(n, _ => cqs[|cqs| - 1]);
      assert |r| == (|cqs| - 1) * n + n;
      r
  }

  /** With distinct queues, each queue gets exactly `n` slots. */
  lemma {:induction false} SlotsPerQueue(cqs: seq<nat>, n: nat, q: nat)
    requires forall i, j :: 0 <= i < j < |cqs| ==> cqs[i] != cqs[j]
    ensures multiset(SlotsOf(cqs, n))[q] == if q in cqs then n else 0
    decreases |cqs|
  {
    if |cqs| > 0 {
      var front := cqs[..|cqs| - 1];
      var last := cqs[|cqs| - 1];
      SlotsPerQueue(front, n, q);
      var tail := seq(n, _ => last);
      assert SlotsOf(cqs, n) == SlotsOf(front, n) + tail;
      RepeatCount(last, n, q);
      assert q in cqs <==> q in front || q == last;
      if q == last {
        assert q !in front;
      }
    }
  }

  lemma {:induction false} RepeatCount(x: nat, n: nat, q: nat)
    ensures multiset(seq(n, _ => x))[q] == if q == x then n else 0
    decreases n
  {
    if n > 0 {
      assert seq(n, _ => x) == seq(n - 1, _ => x) + [x];
      RepeatCount(x, n - 1, q);
    } else {
      assert seq(n, _ => x) == [];
    }
  }

  /** `Server::start`: `slotsPerCq` request slots on every queue, in queue
      order. `answer(c, k)` is the native answer to the `k`-th request on
      queue `c`. Returns the queues of the submitted requests and whether
      one was refused (a panic, which stops the loop). */
  method Start(s: Inner, answer: (nat, nat) -> CallCode) returns (requested: seq<nat>, panicked: bool)
    ensures s.shutdown ==> requested == [] && !panicked
    ensures !panicked && !s.shutdown ==> requested == SlotsOf(s.cqs, s.slotsPerCq)
    ensures !panicked && !s.shutdown ==>
              forall c, k :: 0 <= c < |s.cqs| && 0 <= k < s.slotsPerCq ==> answer(c, k) == CallOk
    ensures panicked ==> !s.shutdown && exists c, k :: 0 <= c < |s.cqs| && 0 <= k < s.slotsPerCq && answer(c, k) != CallOk
  {
    requested := [];
    panicked := false;
    var c := 0;
    while c < |s.cqs|
      invariant 0 <= c <= |s.cqs|
      invariant s.shutdown ==> requested == []
      invariant !s.shutdown ==> requested == SlotsOf(s.cqs[..c], s.slotsPerCq)
      invariant !s.shutdown ==>
                  forall c', k :: 0 <= c' < c && 0 <= k < s.slotsPerCq ==> answer(c', k) == CallOk
    {
      var k := 0;
      while k < s.slotsPerCq
        invariant 0 <= k <= s.slotsPerCq
        invariant s.shutdown ==> requested == []
        invariant !s.shutdown ==> requested == SlotsOf(s.cqs[..c], s.slotsPerCq) + seq(k, _ => s.cqs[c])
        invariant !s.shutdown ==>
                    forall c', k' :: 0 <= c' < c && 0 <= k' < s.slotsPerCq ==> answer(c', k') == CallOk
        invariant !s.shutdown ==> forall k' :: 0 <= k' < k ==> answer(c, k') == CallOk
      {
        match RequestCall(s, answer(c, k)) {
          case Skipped =>
          case Requested =>
            requested := requested + [s.cqs[c]];
            assert seq(k + 1, _ => s.cqs[c]) == seq(k, _ => s.cqs[c]) + [s.cqs[c]];
          case RequestPanic =>
            panicked := true;
            return;
        }
        k := k + 1;
      }
      assert s.cqs[..c + 1][..c] == s.cqs[..c];
      c := c + 1;
    }
    assert s.cqs[..c] == s.cqs;
  }
}
