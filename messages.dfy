/** The message model: a parsed `Request` and a `Response` with its
    builders and mutators. Both are owned by one exchange and moved from
    stage to stage, so they are values here; a mutator returns the updated
    message. */
module Messages {
  import opened Wrappers
  import opened Text
  import opened Vocabulary

  /** The protocol token written on every status line. */
  const HTTP_VERSION: string := "HTTP/1.1"

  /** A request as the parser builds it: header names are lower-case and
      each name keeps one value. */
  datatype Request = Request(
    verb: Method,
    uri: string,
    version: string,
    headers: map<string, string>,
    body: seq<byte>)

  /** `Request::new`: the request line's three parts, no headers, no body. */
  function NewRequest(verb: Method, uri: string, version: string): (r: Request)
    ensures r.verb == verb && r.uri == uri && r.version == version
    ensures r.headers == map[] && r.body == []
  {
    Request(verb, uri, version, map[], [])
  }

  datatype Response = Response(status: HttpStatus, headers: map<string, string>, body: seq<byte>)

  /** `Response::new`: a bare status with no headers and no body. */
  function NewResponse(status: HttpStatus): (r: Response)
    ensures r.status == status && r.headers == map[] && r.body == []
  {
    Response(status, map[], [])
  }

  /** `Response::not_found`. */
  function NotFoundResponse(): (r: Response)
    ensures r.status == NotFound && Code(r.status) == 404
    ensures r.headers == map[] && r.body == []
  {
    NewResponse(NotFound)
  }

  /** `Response::redirect`: a permanent redirect whose `Location` is the
      target path, with no body (RFC 9110 sections 15.4.2 and 10.2.2). */
  function RedirectResponse(path: string): (r: Response)
    ensures r.status == MovedPermanently && Code(r.status) == 301
    ensures r.headers.Keys == {"Location"} && r.headers["Location"] == path
    ensures r.body == []
  {
    Response(MovedPermanently, map["Location" := path], [])
  }

  /** `order` lists every member of `members` exactly once: the order a
      hash set or hash map happens to yield its members in. */
  ghost predicate IsEnumeration<T(!new)>(order: seq<T>, members: set<T>) {
    (forall x :: x in members <==> x in order)
    && (forall i, j :: 0 <= i < j < |order| ==> order[i] != order[j])
  }

  /** An enumeration is as long as the set it enumerates. */
  lemma {:induction false} EnumerationSize<T(!new)>(order: seq<T>, members: set<T>)
    requires IsEnumeration(order, members)
    ensures |order| == |members|
    decreases |order|
  {
    if order != [] {
      var x := order[|order| - 1];
      var prefix := order[..|order| - 1];
      forall y | y in members - {x}
        ensures y in prefix
      {
        var i :| 0 <= i < |order| && order[i] == y;
        assert i != |order| - 1;
        assert prefix[i] == y;
      }
      forall y | y in prefix
        ensures y in members - {x}
      {
        var i :| 0 <= i < |prefix| && prefix[i] == y;
        assert order[i] == y && i < |order| - 1;
      }
      assert IsEnumeration(prefix, members - {x});
      EnumerationSize(prefix, members - {x});
    }
  }

  function MethodNames(order: seq<Method>): (names: seq<string>)
    ensures |names| == |order|
    ensures forall i :: 0 <= i < |order| ==> names[i] == Name(order[i])
  {
    seq(|order|, i requires 0 <= i < |order| => Name(order[i]))
  }

  /** `Response::allowed`: a 204 whose single `Allowed` header lists the
      given methods, joined by commas in the set's iteration order `order`. */
  function AllowedResponse(methods: set<Method>, order: seq<Method>): (r: Response)
    requires IsEnumeration(order, methods)
    ensures r.status == NoContent && Code(r.status) == 204
    ensures r.headers.Keys == {"Allowed"} && r.body == []
  {
    Response(NoContent, map["Allowed" := Join(MethodNames(order), ",")], [])
  }

  /** The `Allowed` header, cut at its commas, is the list of names in
      iteration order. */
  lemma AllowedHeaderNames(methods: set<Method>, order: seq<Method>)
    requires IsEnumeration(order, methods) && methods != {}
    ensures Split(AllowedResponse(methods, order).headers["Allowed"], ',') == MethodNames(order)
  {
    assert |order| >= 1 by {
      var m :| m in methods;
      assert m in order;
    }
    SplitJoin(MethodNames(order), ',');
  }

  /** `names` names each method of `methods` once, each name reading back
      as its method, and nothing else. */
  predicate ListsEachOnce(names: seq<string>, methods: set<Method>) {
    && |names| == |methods|
    && (forall m :: m in methods <==> Name(m) in names)
    && (forall i :: 0 <= i < |names| ==> ParseMethod(names[i]).Some? && ParseMethod(names[i]).value in methods)
    && (forall i, j :: 0 <= i < j < |names| ==> names[i] != names[j])
  }

  /** Read back at its commas, the `Allowed` header names each given method
      once and nothing else. */
  lemma AllowedListsEachMethodOnce(methods: set<Method>, order: seq<Method>)
    requires IsEnumeration(order, methods) && methods != {}
    ensures ListsEachOnce(Split(AllowedResponse(methods, order).headers["Allowed"], ','), methods)
  {
    AllowedHeaderNames(methods, order);
    EnumerationNames(order, methods);
  }

  /** The names of an enumeration list each of its members once. */
  lemma EnumerationNames(order: seq<Method>, methods: set<Method>)
    requires IsEnumeration(order, methods)
    ensures ListsEachOnce(MethodNames(order), methods)
  {
    EnumerationSize(order, methods);
    NamesCover(order, methods);
    NamesParse(order);
    NamesDistinct(order, methods);
  }

  lemma NamesCover(order: seq<Method>, methods: set<Method>)
    requires IsEnumeration(order, methods)
    ensures forall m :: m in methods <==> Name(m) in MethodNames(order)
  {
    var names := MethodNames(order);
    forall m | m in methods
      ensures Name(m) in names
    {
      var i :| 0 <= i < |order| && order[i] == m;
      assert names[i] == Name(m);
    }
    forall m | Name(m) in names
      ensures m in methods
    {
      var i :| 0 <= i < |names| && names[i] == Name(m);
      NameInjective(order[i], m);
    }
  }

  lemma NamesParse(order: seq<Method>)
    ensures forall i :: 0 <= i < |order| ==> ParseMethod(MethodNames(order)[i]) == Some(order[i])
  {
    forall i | 0 <= i < |order|
      ensures ParseMethod(MethodNames(order)[i]) == Some(order[i])
    {
      ParseMethodRoundTrip(order[i]);
    }
  }

  lemma NamesDistinct(order: seq<Method>, methods: set<Method>)
    requires IsEnumeration(order, methods)
    ensures forall i, j :: 0 <= i < j < |order| ==> MethodNames(order)[i] != MethodNames(order)[j]
  {
    forall i, j | 0 <= i < j < |order|
      ensures MethodNames(order)[i] != MethodNames(order)[j]
    {
      NameInjective(order[i], order[j]);
    }
  }

  /** `Response::add_header`: the name is lower-cased and replaces any
      earlier value under that name; status and body are untouched. */
  function AddHeader(r: Response, name: string, value: string): (r': Response)
    ensures r'.status == r.status && r'.body == r.body
    ensures r'.headers.Keys == r.headers.Keys + {ToLower(name)}
    ensures r'.headers[ToLower(name)] == value
    ensures forall k :: k in r.headers && k != ToLower(name) ==> r'.headers[k] == r.headers[k]
  {
    r.(headers := r.headers[ToLower(name) := value])
  }

  /** Header names are case-insensitive: the second of two writes under
      names that differ only in case is the one kept. */
  lemma AddHeaderLastWins(r: Response, n1: string, v1: string, n2: string, v2: string)
    requires ToLower(n1) == ToLower(n2)
    ensures AddHeader(AddHeader(r, n1, v1), n2, v2) == AddHeader(r, n2, v2)
  {
  }

  /** `Response::add_body`: the body is replaced wholesale. */
  function AddBody(r: Response, body: seq<byte>): (r': Response)
    ensures r'.status == r.status && r'.headers == r.headers
    ensures r'.body == body
  {
    r.(body := body)
  }

  /** `Response::clean_body`: the body is emptied. */
  function CleanBody(r: Response): (r': Response)
    ensures r'.status == r.status && r'.headers == r.headers
    ensures r'.body == []
  {
    r.(body := [])
  }
}
