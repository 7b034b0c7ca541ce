/**
 * `MultiplexService` (src/proto/mod.rs): one service in front of a REST
 * service and a gRPC service. `poll_ready` drives both inner services to
 * readiness and records it in two flags; `call` routes a request by its
 * Content-Type and clears the flag of the service it used. What the inner
 * services answer when polled is an input.
 */
module Multiplex {
  import opened Wrappers
  import opened Utf8
  import Http

  /** A request, as far as routing looks at it: the first value of each header. */
  datatype Request = Request(headers: map<Http.HeaderName, seq<byte>>)

  /** `std::task::Poll`. */
  datatype Poll<T> = Ready(value: T) | Pending

  datatype Side = Rest | Grpc

  /** The Content-Type prefix of gRPC requests ("Requests" section of the gRPC over HTTP/2 protocol). */
  const GrpcContentType: seq<byte> := Ascii("application/grpc")

  predicate StartsWith(s: seq<byte>, prefix: seq<byte>) {
    |prefix| <= |s| && s[..|prefix|] == prefix
  }

  /** `is_grpc_request`: a Content-Type header is present and its bytes start with "application/grpc". */
  function IsGrpcRequest(req: Request): (grpc: bool)
    ensures grpc <==> Http.ContentType in req.headers &&
                      exists rest :: req.headers[Http.ContentType] == GrpcContentType + rest
  {
    if Http.ContentType in req.headers then
      var ct := req.headers[Http.ContentType];
      assert StartsWith(ct, GrpcContentType) ==> ct == GrpcContentType + ct[|GrpcContentType|..];
      assert forall rest :: ct == GrpcContentType + rest ==> StartsWith(ct, GrpcContentType);
      StartsWith(ct, GrpcContentType)
    else
      false
  }

  /** Routing examples: a content subtype still counts, JSON and a missing header do not. */
  lemma RoutingExamples()
    ensures IsGrpcRequest(Request(map[Http.ContentType := Ascii("application/grpc+proto")]))
    ensures !IsGrpcRequest(Request(map[Http.ContentType := Ascii("application/json")]))
    ensures !IsGrpcRequest(Request(map[]))
  {
    assert Ascii("application/grpc+proto") == GrpcContentType + Ascii("+proto");
    assert Ascii("application/json")[12] != GrpcContentType[12];
  }

  class MultiplexService<RestT, GrpcT> {
    var rest: RestT
    var grpc: GrpcT
    var restReady: bool
    var grpcReady: bool

    /** `MultiplexService::new`: neither inner service is known to be ready. */
    constructor (rest: RestT, grpc: GrpcT)
      ensures this.rest == rest && this.grpc == grpc
      ensures !restReady && !grpcReady
    {
      this.rest := rest;
      this.grpc := grpc;
      restReady := false;
      grpcReady := false;
    }

    /** `clone`: the same inner services, readiness not carried over. */
    method Clone() returns (c: MultiplexService<RestT, GrpcT>)
      ensures fresh(c) && c.rest == rest && c.grpc == grpc
      ensures !c.restReady && !c.grpcReady
    {
      c := new MultiplexService(rest, grpc);
    }

    /**
     * `poll_ready`. `restPoll` is what the REST service's `poll_ready` answers
     * (it cannot fail), `grpcPoll` what the gRPC service's answers; each is
     * consulted only while its flag is still false, REST first.
     */
    method PollReady<E>(restPoll: Poll<()>, grpcPoll: Poll<Result<(), E>>) returns (r: Poll<Result<(), E>>)
      modifies this
      ensures rest == old(rest) && grpc == old(grpc)
      ensures restReady == (old(restReady) || restPoll.Ready?)
      ensures grpcReady == (old(grpcReady) || (restReady && grpcPoll.Ready? && grpcPoll.value.Ok?))
      ensures r == Ready(Ok(())) <==> restReady && grpcReady
      ensures r.Ready? && r.value.Err? <==> !old(grpcReady) && restReady && grpcPoll.Ready? && grpcPoll.value.Err?
      ensures r.Ready? && r.value.Err? ==> r == grpcPoll
      ensures r.Pending? <==> (!restReady || (!grpcReady && grpcPoll.Pending?))
    {
      while true
        invariant rest == old(rest) && grpc == old(grpc)
        invariant old(restReady) ==> restReady
        invariant restReady ==> old(restReady) || restPoll.Ready?
        invariant grpcReady ==> old(grpcReady) || (restReady && grpcPoll.Ready? && grpcPoll.value.Ok?)
        invariant old(grpcReady) ==> grpcReady
        decreases (if restReady then 0 else 1) + (if grpcReady then 0 else 1)
      {
        if restReady && grpcReady {
          return Ready(Ok(()));
        } else if !restReady {
          match restPoll
          case Pending => return Pending;
          case Ready(_) => restReady := true;
        } else {
          match grpcPoll
          case Pending => return Pending;
          case Ready(Err(e)) => return Ready(Err(e));
          case Ready(Ok(_)) => grpcReady := true;
        }
      }
    }

    /**
     * `call`. The source asserts both flags (a panic otherwise), so both are
     * required here. A gRPC request goes to the gRPC service and clears only
     * its flag; any other request goes to the REST service and clears only its.
     */
    method Call(req: Request) returns (target: Side)
      requires restReady && grpcReady
      modifies this
      ensures rest == old(rest) && grpc == old(grpc)
      ensures target == Grpc <==> IsGrpcRequest(req)
      ensures grpcReady == (target == Rest) && restReady == (target == Grpc)
    {
      if IsGrpcRequest(req) {
        grpcReady := false;
        target := Grpc;
      } else {
        restReady := false;
        target := Rest;
      }
    }
  }
}
