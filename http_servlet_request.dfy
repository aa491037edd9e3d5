/**
 * The servlet-facing view of a parsed request: lookups delegated to the wrapped `Request`, a
 * few constant answers, and an input stream that may be opened once.
 */
module HttpRequests {
  import opened Wrappers
  import opened JavaInts
  import opened JavaStrings
  import opened InputStreams
  import opened Requests

  /** What the adapter's getters can throw. */
  datatype AccessError =
    | Lookup(cause: LookupError)  // `NullPointerException` or `IndexOutOfBoundsException` from a header or parameter lookup
    | NumberFormat                // `Integer.parseInt` on a header value that is not a number
    | IllegalState                // a second `getInputStream`

  /** How `StringBuffer.append` writes a string that may be `null`. */
  function NullText(s: Option<string>): (r: string)
    ensures s.Some? ==> r == s.value
    ensures s.None? ==> r == "null"
  {
    if s.Some? then s.value else "null"
  }

  class HttpServletRequest {
    const request: Request
    /** Whether `getInputStream` has been called. */
    var inputCalled: bool

    constructor (request: Request)
      ensures this.request == request && !inputCalled
    {
      this.request := request;
      inputCalled := false;
    }

    /** `getHeader(s)`: the first value; an absent header is a null dereference, an empty list an index error. */
    function GetHeader(name: string): (r: Result<string, AccessError>)
      reads request
      ensures r.Ok? <==> name in request.headers && |request.headers[name]| > 0
      ensures r.Ok? ==> r.value == request.headers[name][0]
      ensures name !in request.headers ==> r == Err(Lookup(NullPointer))
      ensures name in request.headers && |request.headers[name]| == 0 ==> r == Err(Lookup(IndexOutOfBounds))
    {
      if name !in request.headers then Err(Lookup(NullPointer))
      else if |request.headers[name]| == 0 then Err(Lookup(IndexOutOfBounds))
      else Ok(request.headers[name][0])
    }

    /** `getHeaders(s)`: every stored value, or none for an absent header. */
    function GetHeaders(name: string): (r: seq<string>)
      reads request
      ensures name in request.headers ==> r == request.headers[name]
      ensures name !in request.headers ==> r == []
    {
      if name in request.headers then request.headers[name] else []
    }

    /** `getIntHeader(s)`: the first value read as an `int`. */
    function GetIntHeader(name: string): (r: Result<int, AccessError>)
      reads request
      ensures r.Ok? <==> GetHeader(name).Ok? && ParseInt(GetHeader(name).value).Some?
      ensures r.Ok? ==> IsInt32(r.value) && Some(r.value) == ParseInt(GetHeader(name).value)
      ensures GetHeader(name).Err? ==> r == Err(GetHeader(name).error)
    {
      match GetHeader(name)
      case Err(e) => Err(e)
      case Ok(v) =>
        match ParseInt(v)
        case None => Err(NumberFormat)
        case Some(n) => Ok(n)
    }

    /** `getContentLength()` and `getContentLengthLong()`. */
    function GetContentLength(): (r: Result<int, AccessError>)
      reads request
      ensures r == GetIntHeader(CONTENT_LENGTH)
      ensures r.Ok? ==> IsInt32(r.value)
    {
      GetIntHeader(CONTENT_LENGTH)
    }

    /** `getContentType()`: the first `Content-Type` value, with `getHeader`'s two exceptions. */
    function GetContentType(): (r: Result<string, AccessError>)
      reads request
      ensures r.Ok? <==> "Content-Type" in request.headers && |request.headers["Content-Type"]| > 0
      ensures r.Ok? ==> r.value == request.headers["Content-Type"][0]
      ensures "Content-Type" !in request.headers ==> r == Err(Lookup(NullPointer))
      ensures "Content-Type" in request.headers && |request.headers["Content-Type"]| == 0 ==> r == Err(Lookup(IndexOutOfBounds))
    {
      GetHeader("Content-Type")
    }

    function GetMethod(): string
      reads request
    {
      request.methodName
    }

    function GetQueryString(): Option<string>
      reads request
    {
      request.queryString
    }

    function GetRequestURI(): string
      reads request
    {
      request.url
    }

    function GetProtocol(): string
    {
      "HTTP/1.1"
    }

    function GetScheme(): string
    {
      "http"
    }

    /** The server name is never filled in. */
    function GetServerName(): Option<string>
    {
      None
    }

    function GetServerPort(): int
    {
      0
    }

    /** `getRequestURL()`: scheme, `://`, server name, `:`, port and request URI. */
    function GetRequestURL(): (r: string)
      reads request
      ensures r == "http://null:0" + request.url
    {
      assert IntToString(GetServerPort()) == "0";
      GetScheme() + "://" + NullText(GetServerName()) + ":" + IntToString(GetServerPort()) + GetRequestURI()
    }

    /**
     * `getParameter(s)`: the wrapped request's lookup as written. It throws on a request that
     * never got parameters and on a key whose value list is empty; otherwise it answers the
     * key's first value, or `null`.
     */
    function GetParameter(key: string): (r: Result<Option<string>, AccessError>)
      reads request
      ensures request.params.None? ==> r == Err(Lookup(NullPointer))
      ensures request.params.Some? && key in request.params.value && |request.params.value[key]| == 0 ==>
        r == Err(Lookup(IndexOutOfBounds))
      ensures r.Ok? <==> request.params.Some? && (key !in request.params.value || |request.params.value[key]| > 0)
      ensures r.Ok? ==> r.value == Parameter(request.params, key)
    {
      match ParameterAsWritten(request.params, key)
      case Ok(v) => Ok(v)
      case Err(e) => Err(Lookup(e))
    }

    /**
     * `getParameterValues(s)`: the wrapped request's lookup as written. It throws on a request
     * that never got parameters; otherwise it answers every value of the key, or `null`.
     */
    function GetParameterValues(key: string): (r: Result<Option<seq<string>>, AccessError>)
      reads request
      ensures r == Err(Lookup(NullPointer)) <==> request.params.None?
      ensures r.Ok? <==> request.params.Some?
      ensures r.Ok? ==> r.value == ParameterValues(request.params, key)
    {
      match ParameterValuesAsWritten(request.params, key)
      case Ok(v) => Ok(v)
      case Err(e) => Err(Lookup(e))
    }

    /**
     * `getInputStream()`: the first call opens a stream at the start of the request body; every
     * later call throws `IllegalStateException`.
     */
    method GetInputStream() returns (r: Result<ServletInputStream, AccessError>)
      modifies this`inputCalled
      ensures inputCalled
      ensures !old(inputCalled) ==>
                (r.Ok? && fresh(r.value) && r.value.data == request.requestBody &&
                 r.value.lastIndexRetrieved == -1 && r.value.listener == None && r.value.notices == [])
      ensures old(inputCalled) ==> r == Err(IllegalState)
    {
      if !inputCalled {
        inputCalled := true;
        var stream := new ServletInputStream(request.requestBody);
        return Ok(stream);
      }
      r := Err(IllegalState);
    }
  }

  /** The header `getHeader` returns is the first of those `getHeaders` returns. */
  lemma HeaderIsFirstOfHeaders(h: HttpServletRequest, name: string)
    ensures h.GetHeader(name).Ok? <==> |h.GetHeaders(name)| > 0
    ensures h.GetHeader(name).Ok? ==> h.GetHeader(name).value == h.GetHeaders(name)[0]
  {
  }

  /** A `Content-Length` written as a decimal `int` reads back as that number. */
  lemma ContentLengthReadsBack(h: HttpServletRequest, n: int)
    requires IsInt32(n) && CONTENT_LENGTH in h.request.headers
    requires |h.request.headers[CONTENT_LENGTH]| > 0 && h.request.headers[CONTENT_LENGTH][0] == IntToString(n)
    ensures h.GetContentLength() == Ok(n)
  {
    ParseIntToString(n);
  }

  /** The answers that do not depend on the request. */
  lemma ConstantAnswers(h: HttpServletRequest)
    ensures h.GetProtocol() == "HTTP/1.1" && h.GetScheme() == "http"
    ensures h.GetServerName() == None && h.GetServerPort() == 0
  {
  }

  /**
   * Over a request parsed from `text`: the method is a known one, the URI and query string are
   * those of the first line, and `getHeader("Cookie")` throws because the parser removed that
   * header. `getParameter` answers from the parsed parameters when it does not throw, and it
   * throws on every request with neither a query string nor a `Content-Length` header.
   */
  lemma ViewOfParsedRequest(h: HttpServletRequest, text: string, methods: set<string>, key: string)
    requires ParseRequest(text, methods).Ok? && h.request.Data() == ParseRequest(text, methods).value
    ensures h.GetMethod() in methods
    ensures h.GetRequestURI() == ParseRequest(text, methods).value.url
    ensures h.GetQueryString() == ParseRequest(text, methods).value.queryString
    ensures h.GetRequestURL() == "http://null:0" + ParseRequest(text, methods).value.url
    ensures h.GetParameter(key).Ok? ==> h.GetParameter(key).value == Parameter(ParseRequest(text, methods).value.params, key)
    ensures ParseRequest(text, methods).value.queryString.None? && CONTENT_LENGTH !in ParseRequest(text, methods).value.headers ==>
      h.GetParameter(key) == Err(Lookup(NullPointer))
    ensures h.GetHeader(COOKIE) == Err(Lookup(NullPointer)) && h.GetHeaders(COOKIE) == []
  {
    ParsedRequestShape(text, methods);
    if ParseRequest(text, methods).value.queryString.None? && CONTENT_LENGTH !in ParseRequest(text, methods).value.headers {
      ParamsStayNull(text, methods, key);
    }
  }

  /** `getInputStream` succeeds on the first call only, whatever the request. */
  method InputStreamOnce(h: HttpServletRequest) returns (first: Result<ServletInputStream, AccessError>, second: Result<ServletInputStream, AccessError>)
    requires !h.inputCalled
    modifies h
    ensures first.Ok? && first.value.data == h.request.requestBody && first.value.Available() == |h.request.requestBody|
    ensures second == Err(IllegalState)
  {
    first := h.GetInputStream();
    second := h.GetInputStream();
  }
}
