/** The per-connection pipeline of the server: request interceptors, the
    handler, response interceptors, and the server object that holds them.
    Interceptors and the handler are pure functions here; what each one
    does is up to the application. */
module Pipeline {
  import opened Wrappers
  import opened Text
  import Vocabulary
  import opened Messages
  import opened Codec

  /** What a request interceptor decides: pass a (possibly rewritten)
      request on, or answer at once. */
  datatype Flow = Continue(request: Request) | Break(response: Response)

  type RequestInterceptor = Request -> Flow
  type ResponseInterceptor = (Request, Response) -> Response

  /** A request handler: a response, or an error message. */
  type Handler = Request -> Result<Response, string>

  /** The request interceptors in order: each sees the request the previous
      one passed on, and the first one that answers ends the chain. */
  function RunRequestChain(chain: seq<RequestInterceptor>, q: Request): Flow
    decreases |chain|
  {
    if chain == [] then Continue(q)
    else match chain[0](q)
      case Break(r) => Break(r)
      case Continue(q') => RunRequestChain(chain[1..], q')
  }

  /** The response interceptors in order, each rewriting the response the
      previous one produced; all of them see the same request. */
  function RunResponseChain(chain: seq<ResponseInterceptor>, q: Request, r: Response): Response
    decreases |chain|
  {
    if chain == [] then r else RunResponseChain(chain[1..], q, chain[0](q, r))
  }

  /** The handler's answer; an error becomes a bare 500. */
  function HandlerResponse(handler: Handler, q: Request): (r: Response)
    ensures handler(q).Success? ==> r == handler(q).value
    ensures handler(q).Failure? ==> r == NewResponse(Vocabulary.InternalServerError)
  {
    match handler(q)
    case Success(r) => r
    case Failure(_) => NewResponse(Vocabulary.InternalServerError)
  }

  /** The response sent for a parsed request: an interceptor's early answer
      as it is, otherwise the handler's answer to the passed-on request
      after every response interceptor. */
  function Exchange(requestChain: seq<RequestInterceptor>, handler: Handler,
                    responseChain: seq<ResponseInterceptor>, q: Request): Response
  {
    match RunRequestChain(requestChain, q)
    case Break(r) => r
    case Continue(q') => RunResponseChain(responseChain, q', HandlerResponse(handler, q'))
  }

  // Properties of the pipeline

  /** Running two request chains one after the other is running their
      concatenation: the second runs only on what the first passes on. */
  lemma {:induction false} RequestChainAppend(a: seq<RequestInterceptor>, b: seq<RequestInterceptor>, q: Request)
    ensures RunRequestChain(a + b, q) ==
      match RunRequestChain(a, q)
      case Break(r) => Break(r)
      case Continue(q') => RunRequestChain(b, q')
    decreases |a|
  {
    if a == [] {
      assert a + b == b;
    } else {
      assert (a + b)[1..] == a[1..] + b;
      match a[0](q)
      case Break(r) =>
      case Continue(q') => RequestChainAppend(a[1..], b, q');
    }
  }

  /** An interceptor pushed after one that answers never runs. */
  lemma BreakIsFinal(a: seq<RequestInterceptor>, b: seq<RequestInterceptor>, q: Request)
    requires RunRequestChain(a, q).Break?
    ensures RunRequestChain(a + b, q) == RunRequestChain(a, q)
  {
    RequestChainAppend(a, b, q);
  }

  /** Response interceptors compose in the order they were pushed. */
  lemma {:induction false} ResponseChainAppend(a: seq<ResponseInterceptor>, b: seq<ResponseInterceptor>,
                                               q: Request, r: Response)
    ensures RunResponseChain(a + b, q, r) == RunResponseChain(b, q, RunResponseChain(a, q, r))
    decreases |a|
  {
    if a == [] {
      assert a + b == b;
    } else {
      assert (a + b)[1..] == a[1..] + b;
      ResponseChainAppend(a[1..], b, q, a[0](q, r));
    }
  }

  /** A chain of one request interceptor is that interceptor. */
  lemma SingleRequestInterceptor(i: RequestInterceptor, q: Request)
    ensures RunRequestChain([i], q) == i(q)
  {
    assert [i][1..] == [];
  }

  /** A chain of two response interceptors applies the first, then the
      second. */
  lemma TwoResponseInterceptors(a: ResponseInterceptor, b: ResponseInterceptor, q: Request, r: Response)
    ensures RunResponseChain([a, b], q, r) == b(q, a(q, r))
  {
    assert [a, b][1..] == [b] && [b][1..] == [];
    assert RunResponseChain([a, b], q, r) == RunResponseChain([b], q, a(q, r));
    assert RunResponseChain([b], q, a(q, r)) == RunResponseChain([], q, b(q, a(q, r)));
  }

  /** An early answer is sent as it is: neither the handler nor any
      response interceptor has a say in it. */
  lemma EarlyAnswerIsFinal(requestChain: seq<RequestInterceptor>, h1: Handler, h2: Handler,
                           c1: seq<ResponseInterceptor>, c2: seq<ResponseInterceptor>, q: Request)
    requires RunRequestChain(requestChain, q).Break?
    ensures Exchange(requestChain, h1, c1, q) == Exchange(requestChain, h2, c2, q)
                                              == RunRequestChain(requestChain, q).response
  {
  }

  /** Without interceptors the handler's answer is sent, and a failing
      handler yields a bare 500. */
  lemma BareExchange(handler: Handler, q: Request)
    ensures Exchange([], handler, [], q) == HandlerResponse(handler, q)
    ensures handler(q).Failure? ==>
      Exchange([], handler, [], q) == Response(Vocabulary.InternalServerError, map[], [])
  {
  }

  // The server object

  /** The server: an address to bind, a handler and two interceptor chains
      that grow as interceptors are pushed. */
  class Server {
    const bind: string
    const handler: Handler
    var requestChain: seq<RequestInterceptor>
    var responseChain: seq<ResponseInterceptor>

    /** `Server::new`: no interceptors yet. */
    constructor(bind: string, handler: Handler)
      ensures this.bind == bind && this.handler == handler
      ensures requestChain == [] && responseChain == []
    {
      this.bind := bind;
      this.handler := handler;
      requestChain := [];
      responseChain := [];
    }

    /** `Server::push_req_inter`: appended, so it runs after the earlier
        ones. */
    method PushRequestInterceptor(i: RequestInterceptor)
      modifies this
      ensures requestChain == old(requestChain) + [i]
      ensures responseChain == old(responseChain)
    {
      requestChain := requestChain + [i];
    }

    /** `Server::push_res_inter`. */
    method PushResponseInterceptor(i: ResponseInterceptor)
      modifies this
      ensures responseChain == old(responseChain) + [i]
      ensures requestChain == old(requestChain)
    {
      responseChain := responseChain + [i];
    }

    /** The pipeline of one connection after parsing: run the request
        interceptors, then the handler, then the response interceptors. */
    method Serve(q: Request) returns (response: Response)
      ensures response == Exchange(requestChain, handler, responseChain, q)
    {
      var request := q;
      var i := 0;
      while i < |requestChain|
        invariant 0 <= i <= |requestChain|
        invariant RunRequestChain(requestChain, q) == RunRequestChain(requestChain[i..], request)
      {
        assert requestChain[i..][1..] == requestChain[i + 1..];
        match requestChain[i](request)
        case Continue(r) =>
          request := r;
          i := i + 1;
        case Break(r) =>
          return r;
      }

      response := HandlerResponse(handler, request);
      ghost var handled := response;
      var j := 0;
      while j < |responseChain|
        invariant 0 <= j <= |responseChain|
        invariant RunResponseChain(responseChain, request, handled)
               == RunResponseChain(responseChain[j..], request, response)
      {
        assert responseChain[j..][1..] == responseChain[j + 1..];
        response := responseChain[j](request, response);
        j := j + 1;
      }
    }

    /** One connection: parse the request (a connection whose request
        cannot be parsed is dropped without an answer), run the pipeline,
        write the serialized response. `order` is the order the header map
        was walked in. */
    method HandleConnection(input: Incoming) returns (written: Option<seq<byte>>, ghost order: seq<string>)
      ensures Parse(input).Failure? ==> written == None
      ensures Parse(input).Success? ==>
        var r := Exchange(requestChain, handler, responseChain, Parse(input).value);
        && IsEnumeration(order, r.headers.Keys)
        && written == Some(Wire(r, order))
    {
      var parsed := ParseRequest(input);
      if parsed.Failure? {
        return None, [];
      }
      var response := Serve(parsed.value);
      var bytes;
      bytes, order := AsBytes(response);
      written := Some(bytes);
    }
  }
}
