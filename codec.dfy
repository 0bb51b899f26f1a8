/** The wire codec: the request parser (request line, header lines, a body
    sized by `Content-Length`, RFC 9112 sections 3, 5 and 6.2) and the
    response serializer. The parser reads from an in-memory stand-in for
    the connection's buffered reader. */
module Codec {
  import opened Wrappers
  import opened Text
  import opened Vocabulary
  import opened Messages

  // ---------------------------------------------------------------------
  // Parsing
  // ---------------------------------------------------------------------

  /** What the connection's reader holds: the lines its line reader yields
      for the head of the message (terminators removed), and the bytes that
      remain once the head has been read. */
  datatype Incoming = Incoming(lines: seq<string>, rest: seq<byte>)

  /** Why no request could be built; each one drops the connection without
      an answer. */
  datatype ParseError =
    | NoRequestLine   // the stream ended before a first line
    | NoVerb          // the first line has no token
    | UnknownMethod   // the first token names none of the nine methods
    | NoPath          // the first line has one token only
    | NoProtocol      // the first line has two tokens only
    | BodyTooShort    // fewer bytes remain than `Content-Length` announces

  /** The request line: method, target and protocol are its first three
      whitespace-separated tokens; the method is checked before the other
      two are looked for, and the protocol is lower-cased. */
  function RequestLine(line: string): (r: Result<(Method, string, string), ParseError>)
    ensures r.Success? <==> |Tokens(line)| >= 3 && ParseMethod(Tokens(line)[0]).Some?
    ensures r.Failure? && r.error == UnknownMethod <==> |Tokens(line)| >= 1 && ParseMethod(Tokens(line)[0]).None?
  {
    var tokens := Tokens(line);
    if |tokens| == 0 then Failure(NoVerb)
    else match ParseMethod(tokens[0])
      case None => Failure(UnknownMethod)
      case Some(m) =>
        if |tokens| < 2 then Failure(NoPath)
        else if |tokens| < 3 then Failure(NoProtocol)
        else Success((m, tokens[1], ToLower(tokens[2])))
  }

  /** The lines before the first empty one. */
  function HeaderSection(lines: seq<string>): (h: seq<string>)
    ensures |h| <= |lines| && h == lines[..|h|]
    ensures forall i :: 0 <= i < |h| ==> h[i] != ""
    ensures |h| < |lines| ==> lines[|h|] == ""
  {
    if lines == [] || lines[0] == "" then []
    else [lines[0]] + HeaderSection(lines[1..])
  }

  /** The field a header line carries: the text before the first `": "`,
      lower-cased, and the text after it; nothing for a line without
      `": "`. */
  function HeaderField(line: string): Option<(string, string)> {
    match SplitOnce(line, ": ")
    case None => None
    case Some((name, value)) => Some((ToLower(name), value))
  }

  /** The values `f` yields for the elements of `xs`, in order, skipping
      the elements it yields nothing for. */
  function FilterMap<T, U>(xs: seq<T>, f: T -> Option<U>): (ys: seq<U>)
    ensures |ys| <= |xs|
    decreases |xs|
  {
    if xs == [] then []
    else
      var init := FilterMap(xs[..|xs| - 1], f);
      match f(xs[|xs| - 1])
      case None => init
      case Some(y) => init + [y]
  }

  /** A map built by inserting `fields` in order into an empty one, so that
      a later field replaces an earlier one with the same name. */
  function Insert<K, V>(fields: seq<(K, V)>): map<K, V>
    decreases |fields|
  {
    if fields == [] then map[]
    else
      var last := fields[|fields| - 1];
      Insert(fields[..|fields| - 1])[last.0 := last.1]
  }

  /** The header map the parser builds from the header lines. */
  function HeaderMap(lines: seq<string>): map<string, string> {
    Insert(FilterMap(lines, HeaderField))
  }

  /** The body length a header map announces: a `content-length` that reads
      as a `usize`, and zero when it is missing or unreadable. */
  function BodyLength(headers: map<string, string>): nat {
    if "content-length" in headers then ParseUsize(headers["content-length"]).GetOr(0) else 0
  }

  /** The request the parser builds from `input`, or why it cannot. */
  function Parse(input: Incoming): Result<Request, ParseError> {
    if input.lines == [] then Failure(NoRequestLine)
    else match RequestLine(input.lines[0])
      case Failure(e) => Failure(e)
      case Success((m, uri, version)) =>
        var headers := HeaderMap(HeaderSection(input.lines[1..]));
        var n := BodyLength(headers);
        if n <= |input.rest| then Success(Request(m, uri, version, headers, input.rest[..n]))
        else Failure(BodyTooShort)
  }

  /** The parser (`AsyncTryFrom::try_from` for `Request`): read the request
      line, insert header lines into the map until an empty line or the end
      of the stream, then read exactly the announced number of body bytes. */
  method ParseRequest(input: Incoming) returns (r: Result<Request, ParseError>)
    ensures r == Parse(input)
  {
    if input.lines == [] {
      return Failure(NoRequestLine);
    }
    var first := RequestLine(input.lines[0]);
    if first.Failure? {
      return Failure(first.error);
    }
    var (verb, uri, version) := first.value;
    var headers := ReadHeaders(input.lines[1..]);
    var request := Request(verb, uri, version, headers, []);

    if "content-length" in request.headers {
      var n := ParseUsize(request.headers["content-length"]).GetOr(0);
      if n > |input.rest| {
        return Failure(BodyTooShort);
      }
      request := request.(body := input.rest[..n]);
    }
    return Success(request);
  }

  /** The header loop of the parser: fields are inserted in order until an
      empty line or the end of the stream. */
  method ReadHeaders(lines: seq<string>) returns (headers: map<string, string>)
    ensures headers == HeaderMap(HeaderSection(lines))
  {
    ghost var section := HeaderSection(lines);
    headers := map[];
    var i := 0;
    while i < |lines| && lines[i] != ""
      invariant 0 <= i <= |section|
      invariant headers == HeaderMap(lines[..i])
    {
      HeaderMapSnoc(lines[..i], lines[i]);
      assert lines[..i + 1] == lines[..i] + [lines[i]];
      var field := SplitOnce(lines[i], ": ");
      if field.Some? {
        var (name, value) := field.value;
        headers := headers[ToLower(name) := value];
      }
      i := i + 1;
    }
    assert i == |section|;
  }

  /** Inserting one more header line into the map. */
  lemma HeaderMapSnoc(init: seq<string>, line: string)
    ensures HeaderMap(init + [line]) ==
      match HeaderField(line)
      case None => HeaderMap(init)
      case Some((name, value)) => HeaderMap(init)[name := value]
  {
    assert (init + [line])[..|init|] == init;
  }

  // Properties of the parser

  /** A request line written as method, target and protocol separated by
      single spaces is read back as those three parts, whatever the case of
      the method token; the protocol comes back lower-cased. */
  lemma RequestLineSpaced(token: string, uri: string, version: string, m: Method)
    requires ToUpper(token) == Name(m)
    requires token != [] && NoWhitespace(token)
    requires uri != [] && NoWhitespace(uri)
    requires version != [] && NoWhitespace(version)
    ensures RequestLine(token + " " + uri + " " + version) == Success((m, uri, ToLower(version)))
  {
    TokensOfWord(version);
    TokensOfSpaced(uri, version);
    assert token + " " + uri + " " + version == token + " " + (uri + " " + version);
    TokensOfSpaced(token, uri + " " + version);
    ParseMethodSpec(token, m);
  }

  /** The header section ends at the first empty line: nothing after it is
      read as a header. */
  lemma {:induction false} HeaderSectionStops(head: seq<string>, tail: seq<string>)
    requires forall i :: 0 <= i < |head| ==> head[i] != ""
    ensures HeaderSection(head + [""] + tail) == head
    decreases |head|
  {
    if head == [] {
      assert (head + [""] + tail)[0] == "";
    } else {
      assert (head + [""] + tail)[1..] == head[1..] + [""] + tail;
      HeaderSectionStops(head[1..], tail);
      assert [head[0]] + head[1..] == head;
    }
  }

  /** A name is in the map exactly when some field carries it. */
  lemma {:induction false} InsertKeys<K, V>(fields: seq<(K, V)>, k: K)
    ensures k in Insert(fields) <==> exists i :: 0 <= i < |fields| && fields[i].0 == k
    decreases |fields|
  {
    if fields != [] {
      var init := fields[..|fields| - 1];
      InsertKeys(init, k);
      if exists i :: 0 <= i < |init| && init[i].0 == k {
        var i :| 0 <= i < |init| && init[i].0 == k;
        assert fields[i] == init[i];
      }
      if exists i :: 0 <= i < |fields| && fields[i].0 == k {
        var i :| 0 <= i < |fields| && fields[i].0 == k;
        if i < |init| {
          assert init[i] == fields[i];
        }
      }
    }
  }

  /** Under a repeated name the map keeps the value of the last field that
      carries it. */
  lemma {:induction false} InsertLastWins<K, V>(fields: seq<(K, V)>, i: nat)
    requires i < |fields|
    requires forall j :: i < j < |fields| ==> fields[j].0 != fields[i].0
    ensures fields[i].0 in Insert(fields) && Insert(fields)[fields[i].0] == fields[i].1
    decreases |fields|
  {
    var init := fields[..|fields| - 1];
    if i < |fields| - 1 {
      forall j | i < j < |init|
        ensures init[j].0 != init[i].0
      {
        assert init[j] == fields[j];
      }
      InsertLastWins(init, i);
    }
  }

  /** When `f` yields a value for every element, those values are the
      result, one for one. */
  lemma {:induction false} FilterMapTotal<T, U>(xs: seq<T>, f: T -> Option<U>)
    requires forall i :: 0 <= i < |xs| ==> f(xs[i]).Some?
    ensures |FilterMap(xs, f)| == |xs|
    ensures forall i :: 0 <= i < |xs| ==> FilterMap(xs, f)[i] == f(xs[i]).value
    decreases |xs|
  {
    if xs != [] {
      var init := xs[..|xs| - 1];
      FilterMapTotal(init, f);
      assert FilterMap(xs, f) == FilterMap(init, f) + [f(xs[|xs| - 1]).value];
      forall i | 0 <= i < |init|
        ensures FilterMap(xs, f)[i] == f(xs[i]).value
      {
        assert init[i] == xs[i];
      }
    }
  }

  /** What the parser makes of the body: none without `content-length` or
      with a value that is not a `usize` (negative, non-numeric, too large);
      otherwise exactly that many bytes, and a failure when fewer remain. */
  lemma ParsedBody(input: Incoming)
    requires input.lines != [] && RequestLine(input.lines[0]).Success?
    ensures var headers := HeaderMap(HeaderSection(input.lines[1..]));
      var r := Parse(input);
      && ("content-length" !in headers ==> r.Success? && r.value.body == [])
      && ("content-length" in headers && ParseUsize(headers["content-length"]).None? ==>
            r.Success? && r.value.body == [])
      && ("content-length" in headers && ParseUsize(headers["content-length"]).Some? ==>
            var n := ParseUsize(headers["content-length"]).value;
            && (r.Success? <==> n <= |input.rest|)
            && (r.Success? ==> r.value.body == input.rest[..n] && |r.value.body| == n)
            && (r.Failure? ==> r.error == BodyTooShort))
  {
  }

  /** A parsed request carries the request line's parts, the fields of the
      header section (last one wins) and nothing from after the empty line;
      a parse fails only on a bad request line or a short body. */
  lemma ParsedRequest(head: string, fields: seq<string>, after: seq<string>, rest: seq<byte>)
    requires forall i :: 0 <= i < |fields| ==> fields[i] != ""
    ensures var r := Parse(Incoming([head] + fields + [""] + after, rest));
      && (r.Success? ==> RequestLine(head) == Success((r.value.verb, r.value.uri, r.value.version)))
      && (r.Success? ==> r.value.headers == HeaderMap(fields))
      && (r.Failure? <==> RequestLine(head).Failure? || BodyLength(HeaderMap(fields)) > |rest|)
  {
    var lines := [head] + fields + [""] + after;
    assert lines[1..] == fields + [""] + after;
    HeaderSectionStops(fields, after);
  }

  // ---------------------------------------------------------------------
  // Serializing
  // ---------------------------------------------------------------------

  const CRLF: string := "\r\n"

  /** `HTTP/1.1 <code> <reason>`. */
  function StatusLine(s: HttpStatus): string {
    HTTP_VERSION + " " + NatToString(Code(s)) + " " + Description(s)
  }

  function FieldLine(name: string, value: string): string {
    name + ": " + value
  }

  /** The `Content-Length` line the serializer always adds. */
  function LengthLine(n: nat): string {
    "Content-Length: " + NatToString(n)
  }

  /** The encoded header lines, in the order `order`, each ended by CRLF. */
  function FieldBytes(headers: map<string, string>, order: seq<string>): seq<byte>
    requires forall i :: 0 <= i < |order| ==> order[i] in headers
  {
    if order == [] then []
    else
      var name := order[|order| - 1];
      FieldBytes(headers, order[..|order| - 1]) + Utf8(FieldLine(name, headers[name]) + CRLF)
  }

  /** The bytes `Response::as_bytes` produces when the header map yields
      its names in the order `order`: status line, header lines, the
      synthesized `Content-Length`, an empty line, the body. */
  function Wire(r: Response, order: seq<string>): seq<byte>
    requires forall i :: 0 <= i < |order| ==> order[i] in r.headers
  {
    Utf8(StatusLine(r.status) + CRLF) + FieldBytes(r.headers, order)
    + Utf8(LengthLine(|r.body|) + CRLF + CRLF) + r.body
  }

  /** The header loop of `Response::as_bytes`: one line per entry, in the
      unspecified order the map is walked in, returned as `order`. */
  method WriteFields(headers: map<string, string>) returns (bytes: seq<byte>, ghost order: seq<string>)
    ensures IsEnumeration(order, headers.Keys)
    ensures bytes == FieldBytes(headers, order)
  {
    bytes := [];
    order := [];
    var pending := headers.Keys;
    while pending != {}
      invariant pending <= headers.Keys
      invariant forall k :: k in order <==> k in headers.Keys - pending
      invariant forall i :: 0 <= i < |order| ==> order[i] in headers
      invariant forall i, j :: 0 <= i < j < |order| ==> order[i] != order[j]
      invariant bytes == FieldBytes(headers, order)
      decreases pending
    {
      var name :| name in pending;
      assert name !in order;
      assert (order + [name])[..|order|] == order;
      forall k
        ensures k in order + [name] <==> k in headers.Keys - (pending - {name})
      {
        assert k in order + [name] <==> k in order || k == name;
      }
      bytes := bytes + Utf8(FieldLine(name, headers[name]) + CRLF);
      order := order + [name];
      pending := pending - {name};
    }
  }

  /** `Response::as_bytes`: whatever order the headers come in, the output
      starts with the status line and ends with the announced length, an
      empty line and the body. */
  method AsBytes(r: Response) returns (bytes: seq<byte>, ghost order: seq<string>)
    ensures IsEnumeration(order, r.headers.Keys)
    ensures bytes == Wire(r, order)
    ensures Utf8(StatusLine(r.status) + CRLF) <= bytes
    ensures var tail := Utf8(LengthLine(|r.body|) + CRLF + CRLF) + r.body;
      |tail| <= |bytes| && bytes[|bytes| - |tail|..] == tail
  {
    bytes := Utf8(StatusLine(r.status) + CRLF);
    var fields;
    fields, order := WriteFields(r.headers);
    bytes := bytes + fields;
    bytes := bytes + Utf8(LengthLine(|r.body|) + CRLF + CRLF);
    bytes := bytes + r.body;
    WireFraming(r, order);
  }

  // Properties of the serializer

  /** The output starts with the status line, ends with the body, and the
      bytes just before the body announce exactly the body's length. */
  lemma WireFraming(r: Response, order: seq<string>)
    requires IsEnumeration(order, r.headers.Keys)
    ensures var w := Wire(r, order);
      var tail := Utf8(LengthLine(|r.body|) + CRLF + CRLF) + r.body;
      && Utf8(StatusLine(r.status) + CRLF) <= w
      && |tail| <= |w| && w[|w| - |tail|..] == tail
      && w[|w| - |r.body|..] == r.body
  {
    var status := Utf8(StatusLine(r.status) + CRLF);
    var fields := FieldBytes(r.headers, order);
    var length := Utf8(LengthLine(|r.body|) + CRLF + CRLF);
    assert Wire(r, order) == status + fields + length + r.body;
    Framing(status, fields, length, r.body);
  }

  lemma Framing<T>(a: seq<T>, b: seq<T>, c: seq<T>, d: seq<T>)
    ensures var w := a + b + c + d;
      && a <= w
      && w[|w| - |c + d|..] == c + d
      && w[|w| - |d|..] == d
  {
    var w := a + b + c + d;
    assert w == (a + b) + (c + d);
    assert w == (a + b + c) + d;
  }

  /** The head of a serialized response as the lines a line reader yields:
      status line, one `name: value` line per header, the length line. */
  function HeadLines(r: Response, order: seq<string>): seq<string>
    requires forall i :: 0 <= i < |order| ==> order[i] in r.headers
  {
    [StatusLine(r.status)] + HeaderLines(r.headers, order, |r.body|)
  }

  /** The header lines of the head, the length line last. */
  function HeaderLines(headers: map<string, string>, order: seq<string>, length: nat): seq<string>
    requires forall i :: 0 <= i < |order| ==> order[i] in headers
  {
    FieldLines(headers, order) + [LengthLine(length)]
  }

  function FieldLines(headers: map<string, string>, order: seq<string>): (lines: seq<string>)
    requires forall i :: 0 <= i < |order| ==> order[i] in headers
    ensures |lines| == |order|
    ensures forall i :: 0 <= i < |order| ==> lines[i] == FieldLine(order[i], headers[order[i]])
  {
    seq(|order|, i requires 0 <= i < |order| => FieldLine(order[i], headers[order[i]]))
  }

  /** Lines each ended by CRLF. */
  function Terminated(lines: seq<string>): string {
    if lines == [] then "" else Terminated(lines[..|lines| - 1]) + lines[|lines| - 1] + CRLF
  }

  lemma {:induction false} FieldBytesAreLines(headers: map<string, string>, order: seq<string>)
    requires forall i :: 0 <= i < |order| ==> order[i] in headers
    ensures FieldBytes(headers, order) == Utf8(Terminated(FieldLines(headers, order)))
    decreases |order|
  {
    if order != [] {
      var init := order[..|order| - 1];
      var name := order[|order| - 1];
      FieldBytesAreLines(headers, init);
      assert FieldLines(headers, order)[..|order| - 1] == FieldLines(headers, init);
      Utf8Append(Terminated(FieldLines(headers, init)), FieldLine(name, headers[name]) + CRLF);
      assert Terminated(FieldLines(headers, order))
        == Terminated(FieldLines(headers, init)) + (FieldLine(name, headers[name]) + CRLF);
    }
  }

  lemma {:induction false} TerminatedAppend(a: seq<string>, b: seq<string>)
    ensures Terminated(a + b) == Terminated(a) + Terminated(b)
    decreases |b|
  {
    if b == [] {
      assert a + b == a;
    } else {
      var init := b[..|b| - 1];
      assert (a + b)[..|a + b| - 1] == a + init;
      TerminatedAppend(a, init);
    }
  }

  /** The framing of the serializer for any status line `line`. */
  lemma FrameIsLines(line: string, headers: map<string, string>, order: seq<string>, body: seq<byte>)
    requires forall i :: 0 <= i < |order| ==> order[i] in headers
    ensures Utf8(line + CRLF) + FieldBytes(headers, order) + Utf8(LengthLine(|body|) + CRLF + CRLF) + body
         == Utf8(Terminated([line] + HeaderLines(headers, order, |body|)) + CRLF) + body
  {
    var fields := FieldLines(headers, order);
    var last := LengthLine(|body|);
    assert [line] + HeaderLines(headers, order, |body|) == [line] + fields + [last];
    TerminatedFrame(line, fields, last);
    FieldBytesAreLines(headers, order);
    Utf8Append(line + CRLF, Terminated(fields));
    Utf8Append(line + CRLF + Terminated(fields), last + CRLF + CRLF);
  }

  /** A head of lines between a first and a last one, ended by an empty
      line. */
  lemma TerminatedFrame(first: string, lines: seq<string>, last: string)
    ensures Terminated([first] + lines + [last]) + CRLF
         == first + CRLF + Terminated(lines) + (last + CRLF + CRLF)
  {
    TerminatedAppend([first] + lines, [last]);
    TerminatedAppend([first], lines);
    assert Terminated([first]) == first + CRLF by {
      assert [first][..0] == [];
    }
    assert Terminated([last]) == last + CRLF by {
      assert [last][..0] == [];
    }
  }

  /** The serialized bytes are the head lines, each ended by CRLF, an empty
      line, then the body. */
  lemma WireIsHeadLines(r: Response, order: seq<string>)
    requires forall i :: 0 <= i < |order| ==> order[i] in r.headers
    ensures Wire(r, order) == Utf8(Terminated(HeadLines(r, order)) + CRLF) + r.body
  {
    FrameIsLines(StatusLine(r.status), r.headers, order, r.body);
  }

  lemma NoColonLacksSeparator(s: string)
    requires ':' !in s
    ensures Lacks(s, ": ")
  {
    forall j | 0 <= j <= |s|
      ensures !OccursAt(s, ": ", j)
    {
      if j + 2 <= |s| {
        assert s[j..j + 2][0] == s[j] != ':';
      }
    }
  }

  lemma FieldLineRead(name: string, value: string)
    requires Lacks(name, ": ")
    ensures HeaderField(FieldLine(name, value)) == Some((ToLower(name), value))
  {
    SplitOnceAtFirst(name, value);
  }

  /** The fields a line reader finds in the header lines: each header's
      lower-cased name with its value, in order, then the length. */
  lemma HeaderLinesFields(headers: map<string, string>, order: seq<string>, n: nat)
    requires forall i :: 0 <= i < |order| ==> order[i] in headers
    requires forall k :: k in headers ==> Lacks(k, ": ")
    ensures var head := HeaderLines(headers, order, n);
      forall i :: 0 <= i < |head| ==> head[i] != ""
    ensures var fs := FilterMap(HeaderLines(headers, order, n), HeaderField);
      && |fs| == |order| + 1
      && (forall i :: 0 <= i < |order| ==> fs[i] == (ToLower(order[i]), headers[order[i]]))
      && fs[|order|] == ("content-length", NatToString(n))
  {
    var head := HeaderLines(headers, order, n);
    var digits := NatToString(n);
    LengthLineRead(n);
    forall i | 0 <= i < |head|
      ensures head[i] != ""
      ensures HeaderField(head[i]) == Some(if i < |order| then (ToLower(order[i]), headers[order[i]])
                                           else ("content-length", digits))
    {
      if i < |order| {
        assert head[i] == FieldLine(order[i], headers[order[i]]);
        FieldLineRead(order[i], headers[order[i]]);
      } else {
        assert head[i] == LengthLine(n);
      }
    }
    FilterMapTotal(head, HeaderField);
  }

  /** The length line reads back as the `content-length` field. */
  lemma LengthLineRead(n: nat)
    ensures LengthLine(n) != ""
    ensures HeaderField(LengthLine(n)) == Some(("content-length", NatToString(n)))
  {
    NoColonLacksSeparator("Content-Length");
    FieldLineRead("Content-Length", NatToString(n));
    assert LengthLine(n) == FieldLine("Content-Length", NatToString(n));
    assert ToLower("Content-Length") == "content-length";
  }

  /** `fs` lists each header once, under its lower-cased name, and then a
      `content-length` field: the fields of a serialized head. */
  ghost predicate HeadFields(fs: seq<(string, string)>, headers: map<string, string>, order: seq<string>) {
    && IsEnumeration(order, headers.Keys)
    && |fs| == |order| + 1
    && (forall i :: 0 <= i < |order| ==> fs[i] == (ToLower(order[i]), headers[order[i]]))
    && fs[|order|].0 == "content-length"
  }

  /** The map built from the fields of a serialized head holds one name per
      header, lower-cased, and `content-length`. */
  lemma ReadBackKeys(fs: seq<(string, string)>, headers: map<string, string>, order: seq<string>)
    requires HeadFields(fs, headers, order)
    ensures forall name :: name in Insert(fs) <==> name == "content-length" || exists k :: k in headers && ToLower(k) == name
  {
    forall name | name == "content-length" || exists k :: k in headers && ToLower(k) == name
      ensures name in Insert(fs)
    {
      if name == "content-length" {
        assert fs[|order|].0 == name;
      } else {
        var k :| k in headers && ToLower(k) == name;
        assert k in order;
        var i :| 0 <= i < |order| && order[i] == k;
        assert fs[i].0 == name;
      }
      InsertKeys(fs, name);
    }
    forall name | name in Insert(fs) && name != "content-length"
      ensures exists k :: k in headers && ToLower(k) == name
    {
      InsertKeys(fs, name);
      var i :| 0 <= i < |fs| && fs[i].0 == name;
      assert order[i] in headers && ToLower(order[i]) == name;
    }
  }

  /** A header whose lower-cased name no other header shares, and which
      is not a `content-length`, is read back with its value. */
  lemma ReadBackValue(fs: seq<(string, string)>, headers: map<string, string>, order: seq<string>, k: string)
    requires HeadFields(fs, headers, order)
    requires k in headers && ToLower(k) != "content-length"
    requires forall k2 :: k2 in headers && ToLower(k2) == ToLower(k) ==> k2 == k
    ensures ToLower(k) in Insert(fs) && Insert(fs)[ToLower(k)] == headers[k]
  {
    assert k in order;
    var i :| 0 <= i < |order| && order[i] == k;
    forall j | i < j < |fs|
      ensures fs[j].0 != fs[i].0
    {
      if j < |order| {
        assert order[j] != k && order[j] in headers;
      }
    }
    InsertLastWins(fs, i);
  }

  /** Read back with the parser's own header rules, the head of a
      serialized response gives every header again (names lower-cased) and
      a `content-length` equal to the body's length, which wins over any
      stale `content-length` header because it is written last. */
  lemma HeadReadBack(r: Response, order: seq<string>, after: seq<string>)
    requires IsEnumeration(order, r.headers.Keys)
    requires forall k :: k in r.headers ==> Lacks(k, ": ")
    requires |r.body| <= USIZE_MAX
    ensures var fields := HeaderMap(HeaderSection(HeaderLines(r.headers, order, |r.body|) + [""] + after));
      && BodyLength(fields) == |r.body|
      && (forall name :: name in fields <==> name == "content-length" || exists k :: k in r.headers && ToLower(k) == name)
      && (forall k :: k in r.headers && ToLower(k) != "content-length"
            && (forall k2 :: k2 in r.headers && ToLower(k2) == ToLower(k) ==> k2 == k)
            ==> fields[ToLower(k)] == r.headers[k])
  {
    var n := |r.body|;
    var head := HeaderLines(r.headers, order, n);
    HeaderLinesFields(r.headers, order, n);
    HeaderSectionStops(head, after);
    var fs := FilterMap(head, HeaderField);
    assert HeaderMap(HeaderSection(head + [""] + after)) == Insert(fs);

    // The length line comes last, so its value is the one kept.
    InsertLastWins(fs, |order|);
    ParseUsizeOfNat(n);
    assert HeadFields(fs, r.headers, order);
    ReadBackKeys(fs, r.headers, order);
    forall k | k in r.headers && ToLower(k) != "content-length"
        && (forall k2 :: k2 in r.headers && ToLower(k2) == ToLower(k) ==> k2 == k)
      ensures Insert(fs)[ToLower(k)] == r.headers[k]
    {
      ReadBackValue(fs, r.headers, order, k);
    }
  }

  /** Read back token by token, as `split_whitespace` would cut it, the
      status line gives the protocol version, then the code in decimal,
      which parses as a number and names exactly the response's status,
      then the words of the reason phrase. */
  lemma StatusLineReadBack(s: HttpStatus)
    ensures var ts := Tokens(StatusLine(s));
      && ts == [HTTP_VERSION, NatToString(Code(s))] + Tokens(Description(s))
      && ParseUsize(ts[1]) == Some(Code(s))
      && FromCode(ParseUsize(ts[1]).value) == Some(s)
  {
    var code := Code(s);
    StatusTokens(code, Description(s));
    assert StatusLine(s) == HTTP_VERSION + " " + NatToString(code) + " " + Description(s);
    CodeRoundTrip(s);
  }

  lemma StatusTokens(code: nat, phrase: string)
    requires code <= USIZE_MAX
    ensures var ts := Tokens(HTTP_VERSION + " " + NatToString(code) + " " + phrase);
      && ts == [HTTP_VERSION, NatToString(code)] + Tokens(phrase)
      && ParseUsize(ts[1]) == Some(code)
  {
    var digits := NatToString(code);
    assert NoWhitespace(digits) by {
      forall i | 0 <= i < |digits| ensures !IsWhitespace(digits[i]) {
        assert IsDigit(digits[i]);
      }
    }
    assert HTTP_VERSION + " " + digits + " " + phrase == HTTP_VERSION + " " + (digits + " " + phrase);
    TokensOfSpaced(HTTP_VERSION, digits + " " + phrase);
    TokensOfSpaced(digits, phrase);
    ParseUsizeOfNat(code);
  }

  /** The status line of a 404. */
  lemma NotFoundStatusLine()
    ensures StatusLine(NotFound) == "HTTP/1.1 404 Not Found"
  {
    assert Code(NotFound) == 404;
    assert NatToString(404) == "404";
    assert Description(NotFound) == "Not Found";
  }

  /** A bare 404 goes out as exactly its status line and a zero length
      (each line ended by CRLF, then an empty line; see `WireIsHeadLines`). */
  lemma NotFoundHead()
    ensures HeadLines(NotFoundResponse(), []) == ["HTTP/1.1 404 Not Found", "Content-Length: 0"]
  {
    var r := NotFoundResponse();
    NotFoundStatusLine();
    assert NatToString(0) == "0";
    assert LengthLine(0) == "Content-Length: 0";
    assert FieldLines(r.headers, []) == [];
    assert HeadLines(r, []) == [StatusLine(NotFound)] + [] + [LengthLine(0)];
  }
}
