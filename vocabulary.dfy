/** The vocabulary of the HTTP engine: the closed catalogue of status
    codes with their reason phrases (RFC 9110 section 15) and the request
    methods (RFC 9110 section 9). */
module Vocabulary {
  import opened Wrappers
  import opened Text

  // ---------------------------------------------------------------------
  // Status catalogue
  // ---------------------------------------------------------------------

  /** Every status the engine can answer with. */
  datatype HttpStatus =
    Continue
    | SwitchingProtocols
    | Processing
    | EarlyHints
    | Ok
    | Created
    | Accepted
    | NonAuthoritativeInformation
    | NoContent
    | ResetContent
    | PartialContent
    | MultiStatus
    | AlreadyReported
    | ImUsed
    | MultipleChoices
    | MovedPermanently
    | Found
    | SeeOther
    | NotModified
    | UseProxy
    | TemporaryRedirect
    | PermanentRedirect
    | BadRequest
    | Unauthorized
    | PaymentRequired
    | Forbidden
    | NotFound
    | MethodNotAllowed
    | NotAcceptable
    | ProxyAuthenticationRequired
    | RequestTimeout
    | Conflict
    | Gone
    | LengthRequired
    | PreconditionFailed
    | PayloadTooLarge
    | UriTooLong
    | UnsupportedMediaType
    | RangeNotSatisfiable
    | ExpectationFailed
    | ImATeapot
    | MisdirectedRequest
    | UnprocessableEntity
    | Locked
    | FailedDependency
    | TooEarly
    | UpgradeRequired
    | PreconditionRequired
    | TooManyRequests
    | RequestHeaderFieldsTooLarge
    | UnavailableForLegalReasons
    | InternalServerError
    | NotImplemented
    | BadGateway
    | ServiceUnavailable
    | GatewayTimeout
    | HttpVersionNotSupported
    | VariantAlsoNegotiates
    | InsufficientStorage
    | LoopDetected
    | NotExtended
    | NetworkAuthenticationRequired

  /** The numeric status code of `s`; every code is a three-digit
      informational, success, redirection, client-error or server-error
      code. */
  function Code(s: HttpStatus): (c: nat)
    ensures 100 <= c <= 511
  {
    match s
    case Continue => 100
    case SwitchingProtocols => 101
    case Processing => 102
    case EarlyHints => 103
    case Ok => 200
    case Created => 201
    case Accepted => 202
    case NonAuthoritativeInformation => 203
    case NoContent => 204
    case ResetContent => 205
    case PartialContent => 206
    case MultiStatus => 207
    case AlreadyReported => 208
    case ImUsed => 226
    case MultipleChoices => 300
    case MovedPermanently => 301
    case Found => 302
    case SeeOther => 303
    case NotModified => 304
    case UseProxy => 305
    case TemporaryRedirect => 307
    case PermanentRedirect => 308
    case BadRequest => 400
    case Unauthorized => 401
    case PaymentRequired => 402
    case Forbidden => 403
    case NotFound => 404
    case MethodNotAllowed => 405
    case NotAcceptable => 406
    case ProxyAuthenticationRequired => 407
    case RequestTimeout => 408
    case Conflict => 409
    case Gone => 410
    case LengthRequired => 411
    case PreconditionFailed => 412
    case PayloadTooLarge => 413
    case UriTooLong => 414
    case UnsupportedMediaType => 415
    case RangeNotSatisfiable => 416
    case ExpectationFailed => 417
    case ImATeapot => 418
    case MisdirectedRequest => 421
    case UnprocessableEntity => 422
    case Locked => 423
    case FailedDependency => 424
    case TooEarly => 425
    case UpgradeRequired => 426
    case PreconditionRequired => 428
    case TooManyRequests => 429
    case RequestHeaderFieldsTooLarge => 431
    case UnavailableForLegalReasons => 451
    case InternalServerError => 500
    case NotImplemented => 501
    case BadGateway => 502
    case ServiceUnavailable => 503
    case GatewayTimeout => 504
    case HttpVersionNotSupported => 505
    case VariantAlsoNegotiates => 506
    case InsufficientStorage => 507
    case LoopDetected => 508
    case NotExtended => 510
    case NetworkAuthenticationRequired => 511
  }
  /** The reason phrase written after the code on the status line. */
  function Description(s: HttpStatus): (d: string)
    ensures d != []
  {
    match s
    case Continue => "Continue"
    case SwitchingProtocols => "Switching Protocols"
    case Processing => "Processing"
    case EarlyHints => "Early Hints"
    case Ok => "OK"
    case Created => "Created"
    case Accepted => "Accepted"
    case NonAuthoritativeInformation => "Non-Authoritative Information"
    case NoContent => "No Content"
    case ResetContent => "Reset Content"
    case PartialContent => "Partial Content"
    case MultiStatus => "Multi-Status"
    case AlreadyReported => "Already Reported"
    case ImUsed => "IM Used"
    case MultipleChoices => "Multiple Choices"
    case MovedPermanently => "Moved Permanently"
    case Found => "Found"
    case SeeOther => "See Other"
    case NotModified => "Not Modified"
    case UseProxy => "Use Proxy"
    case TemporaryRedirect => "Temporary Redirect"
    case PermanentRedirect => "Permanent Redirect"
    case BadRequest => "Bad Request"
    case Unauthorized => "Unauthorized"
    case PaymentRequired => "Payment Required"
    case Forbidden => "Forbidden"
    case NotFound => "Not Found"
    case MethodNotAllowed => "Method Not Allowed"
    case NotAcceptable => "Not Acceptable"
    case ProxyAuthenticationRequired => "Proxy Authentication Required"
    case RequestTimeout => "Request Timeout"
    case Conflict => "Conflict"
    case Gone => "Gone"
    case LengthRequired => "Length Required"
    case PreconditionFailed => "Precondition Failed"
    case PayloadTooLarge => "Payload Too Large"
    case UriTooLong => "URI Too Long"
    case UnsupportedMediaType => "Unsupported Media Type"
    case RangeNotSatisfiable => "Range Not Satisfiable"
    case ExpectationFailed => "Expectation Failed"
    case ImATeapot => "I'm a teapot"
    case MisdirectedRequest => "Misdirected Request"
    case UnprocessableEntity => "Unprocessable Entity"
    case Locked => "Locked"
    case FailedDependency => "Failed Dependency"
    case TooEarly => "Too Early"
    case UpgradeRequired => "Upgrade Required"
    case PreconditionRequired => "Precondition Required"
    case TooManyRequests => "Too Many Requests"
    case RequestHeaderFieldsTooLarge => "Request Header Fields Too Large"
    case UnavailableForLegalReasons => "Unavailable For Legal Reasons"
    case InternalServerError => "Internal Server Error"
    case NotImplemented => "Not Implemented"
    case BadGateway => "Bad Gateway"
    case ServiceUnavailable => "Service Unavailable"
    case GatewayTimeout => "Gateway Timeout"
    case HttpVersionNotSupported => "HTTP Version Not Supported"
    case VariantAlsoNegotiates => "Variant Also Negotiates"
    case InsufficientStorage => "Insufficient Storage"
    case LoopDetected => "Loop Detected"
    case NotExtended => "Not Extended"
    case NetworkAuthenticationRequired => "Network Authentication Required"
  }
  /** The status carrying code `c`, if the catalogue has one; the inverse
      of `Code`. */
  function FromCode(c: int): (r: Option<HttpStatus>)
  {
    match c
    case 100 => Some(Continue)
    case 101 => Some(SwitchingProtocols)
    case 102 => Some(Processing)
    case 103 => Some(EarlyHints)
    case 200 => Some(Ok)
    case 201 => Some(Created)
    case 202 => Some(Accepted)
    case 203 => Some(NonAuthoritativeInformation)
    case 204 => Some(NoContent)
    case 205 => Some(ResetContent)
    case 206 => Some(PartialContent)
    case 207 => Some(MultiStatus)
    case 208 => Some(AlreadyReported)
    case 226 => Some(ImUsed)
    case 300 => Some(MultipleChoices)
    case 301 => Some(MovedPermanently)
    case 302 => Some(Found)
    case 303 => Some(SeeOther)
    case 304 => Some(NotModified)
    case 305 => Some(UseProxy)
    case 307 => Some(TemporaryRedirect)
    case 308 => Some(PermanentRedirect)
    case 400 => Some(BadRequest)
    case 401 => Some(Unauthorized)
    case 402 => Some(PaymentRequired)
    case 403 => Some(Forbidden)
    case 404 => Some(NotFound)
    case 405 => Some(MethodNotAllowed)
    case 406 => Some(NotAcceptable)
    case 407 => Some(ProxyAuthenticationRequired)
    case 408 => Some(RequestTimeout)
    case 409 => Some(Conflict)
    case 410 => Some(Gone)
    case 411 => Some(LengthRequired)
    case 412 => Some(PreconditionFailed)
    case 413 => Some(PayloadTooLarge)
    case 414 => Some(UriTooLong)
    case 415 => Some(UnsupportedMediaType)
    case 416 => Some(RangeNotSatisfiable)
    case 417 => Some(ExpectationFailed)
    case 418 => Some(ImATeapot)
    case 421 => Some(MisdirectedRequest)
    case 422 => Some(UnprocessableEntity)
    case 423 => Some(Locked)
    case 424 => Some(FailedDependency)
    case 425 => Some(TooEarly)
    case 426 => Some(UpgradeRequired)
    case 428 => Some(PreconditionRequired)
    case 429 => Some(TooManyRequests)
    case 431 => Some(RequestHeaderFieldsTooLarge)
    case 451 => Some(UnavailableForLegalReasons)
    case 500 => Some(InternalServerError)
    case 501 => Some(NotImplemented)
    case 502 => Some(BadGateway)
    case 503 => Some(ServiceUnavailable)
    case 504 => Some(GatewayTimeout)
    case 505 => Some(HttpVersionNotSupported)
    case 506 => Some(VariantAlsoNegotiates)
    case 507 => Some(InsufficientStorage)
    case 508 => Some(LoopDetected)
    case 510 => Some(NotExtended)
    case 511 => Some(NetworkAuthenticationRequired)
    case _ => None
  }

  /** Reading a status back from its code gives the status. */
  lemma CodeRoundTrip(s: HttpStatus)
    ensures FromCode(Code(s)) == Some(s)
  {
    match s {
      case Continue | SwitchingProtocols | Processing | EarlyHints =>
        RoundTrip100To103(s);
      case Ok | Created | Accepted | NonAuthoritativeInformation | NoContent =>
        RoundTrip200To204(s);
      case ResetContent | PartialContent | MultiStatus | AlreadyReported | ImUsed =>
        RoundTrip205To226(s);
      case MultipleChoices | MovedPermanently | Found | SeeOther =>
        RoundTrip300To303(s);
      case NotModified | UseProxy | TemporaryRedirect | PermanentRedirect =>
        RoundTrip304To308(s);
      case BadRequest | Unauthorized | PaymentRequired | Forbidden | NotFound =>
        RoundTrip400To404(s);
      case MethodNotAllowed | NotAcceptable | ProxyAuthenticationRequired | RequestTimeout
        | Conflict =>
        RoundTrip405To409(s);
      case Gone | LengthRequired | PreconditionFailed | PayloadTooLarge | UriTooLong =>
        RoundTrip410To414(s);
      case UnsupportedMediaType | RangeNotSatisfiable | ExpectationFailed | ImATeapot
        | MisdirectedRequest =>
        RoundTrip415To421(s);
      case UnprocessableEntity | Locked | FailedDependency | TooEarly | UpgradeRequired =>
        RoundTrip422To426(s);
      case PreconditionRequired | TooManyRequests | RequestHeaderFieldsTooLarge
        | UnavailableForLegalReasons =>
        RoundTrip428To451(s);
      case InternalServerError | NotImplemented | BadGateway | ServiceUnavailable =>
        RoundTrip500To503(s);
      case GatewayTimeout | HttpVersionNotSupported | VariantAlsoNegotiates
        | InsufficientStorage =>
        RoundTrip504To507(s);
      case LoopDetected | NotExtended | NetworkAuthenticationRequired =>
        RoundTrip508To511(s);
    }
  }

  /** The round trip for the statuses whose codes lie in the range named,
      a few at a time. */
  lemma RoundTrip100To103(s: HttpStatus)
    requires s.Continue? || s.SwitchingProtocols? || s.Processing? || s.EarlyHints?
    ensures FromCode(Code(s)) == Some(s)
  {
  }

  lemma RoundTrip200To204(s: HttpStatus)
    requires s.Ok? || s.Created? || s.Accepted? || s.NonAuthoritativeInformation?
             || s.NoContent?
    ensures FromCode(Code(s)) == Some(s)
  {
  }

  lemma RoundTrip205To226(s: HttpStatus)
    requires s.ResetContent? || s.PartialContent? || s.MultiStatus? || s.AlreadyReported?
             || s.ImUsed?
    ensures FromCode(Code(s)) == Some(s)
  {
  }

  lemma RoundTrip300To303(s: HttpStatus)
    requires s.MultipleChoices? || s.MovedPermanently? || s.Found? || s.SeeOther?
    ensures FromCode(Code(s)) == Some(s)
  {
  }

  lemma RoundTrip304To308(s: HttpStatus)
    requires s.NotModified? || s.UseProxy? || s.TemporaryRedirect? || s.PermanentRedirect?
    ensures FromCode(Code(s)) == Some(s)
  {
  }

  lemma RoundTrip400To404(s: HttpStatus)
    requires s.BadRequest? || s.Unauthorized? || s.PaymentRequired? || s.Forbidden?
             || s.NotFound?
    ensures FromCode(Code(s)) == Some(s)
  {
  }

  lemma RoundTrip405To409(s: HttpStatus)
    requires s.MethodNotAllowed? || s.NotAcceptable? || s.ProxyAuthenticationRequired?
             || s.RequestTimeout? || s.Conflict?
    ensures FromCode(Code(s)) == Some(s)
  {
  }

  lemma RoundTrip410To414(s: HttpStatus)
    requires s.Gone? || s.LengthRequired? || s.PreconditionFailed? || s.PayloadTooLarge?
             || s.UriTooLong?
    ensures FromCode(Code(s)) == Some(s)
  {
  }

  lemma RoundTrip415To421(s: HttpStatus)
    requires s.UnsupportedMediaType? || s.RangeNotSatisfiable? || s.ExpectationFailed?
             || s.ImATeapot? || s.MisdirectedRequest?
    ensures FromCode(Code(s)) == Some(s)
  {
  }

  lemma RoundTrip422To426(s: HttpStatus)
    requires s.UnprocessableEntity? || s.Locked? || s.FailedDependency? || s.TooEarly?
             || s.UpgradeRequired?
    ensures FromCode(Code(s)) == Some(s)
  {
  }

  lemma RoundTrip428To451(s: HttpStatus)
    requires s.PreconditionRequired? || s.TooManyRequests? || s.RequestHeaderFieldsTooLarge?
             || s.UnavailableForLegalReasons?
    ensures FromCode(Code(s)) == Some(s)
  {
  }

  lemma RoundTrip500To503(s: HttpStatus)
    requires s.InternalServerError? || s.NotImplemented? || s.BadGateway?
             || s.ServiceUnavailable?
    ensures FromCode(Code(s)) == Some(s)
  {
  }

  lemma RoundTrip504To507(s: HttpStatus)
    requires s.GatewayTimeout? || s.HttpVersionNotSupported? || s.VariantAlsoNegotiates?
             || s.InsufficientStorage?
    ensures FromCode(Code(s)) == Some(s)
  {
  }

  lemma RoundTrip508To511(s: HttpStatus)
    requires s.LoopDetected? || s.NotExtended? || s.NetworkAuthenticationRequired?
    ensures FromCode(Code(s)) == Some(s)
  {
  }

  /** No two statuses share a code. */
  lemma CodeInjective(a: HttpStatus, b: HttpStatus)
    ensures Code(a) == Code(b) ==> a == b
  {
    CodeRoundTrip(a);
    CodeRoundTrip(b);
  }

  /** The success entries the rest of the engine relies on. */
  lemma SuccessEntries()
    ensures Code(Ok) == 200 && Description(Ok) == "OK"
    ensures Code(NoContent) == 204 && Description(NoContent) == "No Content"
  {
  }

  /** The redirection and error entries the rest of the engine relies on. */
  lemma RedirectEntries()
    ensures Code(MovedPermanently) == 301 && Description(MovedPermanently) == "Moved Permanently"
    ensures Code(NotFound) == 404 && Description(NotFound) == "Not Found"
  {
  }

  /** The error entries the rest of the engine relies on. */
  lemma ErrorEntries()
    ensures Code(MethodNotAllowed) == 405 && Description(MethodNotAllowed) == "Method Not Allowed"
    ensures Code(InternalServerError) == 500 && Description(InternalServerError) == "Internal Server Error"
  {
  }

  // ---------------------------------------------------------------------
  // Methods
  // ---------------------------------------------------------------------

  datatype Method = Get | Head | Post | Put | Delete | Connect | Options | Trace | Patch

  /** The upper-case name a method is displayed with. */
  function Name(m: Method): (s: string)
    ensures s != [] && NoWhitespace(s) && ',' !in s
    ensures ToUpper(s) == s
  {
    match m
    case Get => "GET"
    case Head => "HEAD"
    case Post => "POST"
    case Put => "PUT"
    case Delete => "DELETE"
    case Connect => "CONNECT"
    case Options => "OPTIONS"
    case Trace => "TRACE"
    case Patch => "PATCH"
  }

  /** The method whose name is exactly `s` (the match is case-sensitive). */
  function FromName(s: string): (r: Option<Method>)
    ensures r.Some? ==> Name(r.value) == s
    ensures r.None? ==> forall m :: Name(m) != s
  {
    if s == "GET" then Some(Get)
    else if s == "HEAD" then Some(Head)
    else if s == "POST" then Some(Post)
    else if s == "PUT" then Some(Put)
    else if s == "DELETE" then Some(Delete)
    else if s == "CONNECT" then Some(Connect)
    else if s == "OPTIONS" then Some(Options)
    else if s == "TRACE" then Some(Trace)
    else if s == "PATCH" then Some(Patch)
    else None
  }

  /** The request-line token `token` as a method: upper-cased first, then
      matched against the nine names. */
  function ParseMethod(token: string): Option<Method> {
    FromName(ToUpper(token))
  }

  /** No two methods share a name. */
  lemma NameInjective(a: Method, b: Method)
    ensures Name(a) == Name(b) ==> a == b
  {
  }

  /** A token is a method exactly when its upper-cased form is that
      method's name; any other token is rejected. */
  lemma ParseMethodSpec(token: string, m: Method)
    ensures ParseMethod(token) == Some(m) <==> ToUpper(token) == Name(m)
    ensures ParseMethod(token) == None <==> forall n :: ToUpper(token) != Name(n)
  {
    var r := FromName(ToUpper(token));
    if r.Some? && ToUpper(token) == Name(m) {
      NameInjective(r.value, m);
    }
  }

  /** The displayed name parses back to the method, whatever the case it
      is written in. */
  lemma ParseMethodRoundTrip(m: Method)
    ensures ParseMethod(Name(m)) == Some(m)
    ensures ParseMethod(ToLower(Name(m))) == Some(m)
  {
    UpperForgetsCase(Name(m));
    ParseMethodSpec(Name(m), m);
    ParseMethodSpec(ToLower(Name(m)), m);
  }
}
