/** The benchmark's byte codec and its generic streaming method
    (benchmark/src/bench.rs): messages are raw byte strings passed through
    unchanged. */
module Bench {
  import opened Wrappers
  import opened Grpc
  import Server

  /** `bin_ser`: the item's bytes are appended to the buffer. */
  function BinSer(t: Bytes, buf: Bytes): (r: Bytes)
    ensures |r| == |buf| + |t|
    ensures r[..|buf|] == buf
    ensures r[|buf|..] == t
  {
    buf + t
  }

  /** `bin_de`: never fails, and yields a copy of the buffer. */
  function BinDe(buf: Bytes): (r: Result<Bytes, Error>)
    ensures r.Success? && r.value == buf
  {
    Success(buf)
  }

  /** Serialising into an empty buffer and deserialising gives the item back. */
  lemma BinRoundTrip(t: Bytes)
    ensures BinDe(BinSer(t, [])) == Success(t)
  {
    assert BinSer(t, []) == t;
  }

  /** Deserialising and serialising the result gives the buffer back. */
  lemma BinRoundTripBack(buf: Bytes)
    ensures BinSer(BinDe(buf).value, []) == buf
  {
    assert [] + buf == buf;
  }

  /** The marshallers a method descriptor may name; the benchmark defines
      only the byte codec. */
  datatype Marshaller = BinMarshaller

  function Serialize(m: Marshaller, t: Bytes, buf: Bytes): Bytes
  {
    match m
    case BinMarshaller => BinSer(t, buf)
  }

  function Deserialize(m: Marshaller, buf: Bytes): Result<Bytes, Error>
  {
    match m
    case BinMarshaller => BinDe(buf)
  }

  /** A method descriptor: shape, full name, request and response codecs. */
  datatype Method = Method(ty: MethodType, name: string, reqMar: Marshaller, respMar: Marshaller)

  /** `METHOD_BENCHMARK_SERVICE_GENERIC_CALL`. */
  function GenericCall(): (m: Method)
    ensures m.ty == Duplex
    ensures m.reqMar == m.respMar == BinMarshaller
    ensures m.name == "/grpc.testing.BenchmarkService/StreamingCall"
  {
    Method(Duplex, "/grpc.testing.BenchmarkService/StreamingCall", BinMarshaller, BinMarshaller)
  }

  /** Both directions of the generic method carry messages unchanged. */
  lemma GenericCallIsTransparent(t: Bytes)
    ensures Deserialize(GenericCall().reqMar, Serialize(GenericCall().reqMar, t, [])) == Success(t)
    ensures Deserialize(GenericCall().respMar, Serialize(GenericCall().respMar, t, [])) == Success(t)
  {
    BinRoundTrip(t);
  }

  /** `create_generic_service`: one duplex handler, registered under the
      generic method's name; `user` identifies the echo handler. */
  function CreateGenericService(user: nat): (s: Server.Service)
    ensures s.handlers.Keys == {GenericCall().name}
    ensures s.handlers[GenericCall().name] == Server.Handler(Duplex, Server.CallsDuplex, user)
  {
    Server.BuildService(Server.AddDuplexStreamingHandler(Server.NewServiceBuilder(), GenericCall().name, user))
  }
}
