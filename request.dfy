/**
 * The raw request and its parsing: the text is split into CRLF lines; the first line gives the
 * method and the target (path, then query string after `?`); the lines up to the first blank
 * one are `Key: v1,v2` headers; the `Cookie` header becomes cookies; the last line is the body,
 * parsed as form parameters when `Content-Length` asks for it.
 *
 * The text is taken as already decoded. The method enumeration is a parameter: the set of
 * method names `RequestMethod.valueOf` accepts.
 */
module Requests {
  import opened Wrappers
  import opened JavaInts
  import opened JavaStrings
  import opened Tables
  import opened Cookies
  import opened Contexts
  import opened InputStreams

  const CRLF: string := "\r\n"
  const CONTENT_LENGTH: string := "Content-Length"
  const COOKIE: string := "Cookie"

  /** `RequestInvalidException` (nothing to parse) and `RequestParseException` (anything thrown while parsing). */
  datatype RequestError = RequestInvalid | RequestParse

  /** The exceptions a parameter lookup can throw. */
  datatype LookupError = NullPointer | IndexOutOfBounds

  type Params = map<string, seq<string>>

  /** What the first line gives: the method, the path and the query string (`null` when absent). */
  datatype RequestLine = RequestLine(methodName: string, url: string, queryString: Option<string>)

  /** What `parseHeaders` leaves behind. */
  datatype Head = Head(line: RequestLine, params: Option<Params>, headers: Params, cookies: seq<Cookie>)

  /** Everything the constructor sets. */
  datatype RequestData = RequestData(
    methodName: string,
    url: string,
    queryString: Option<string>,
    params: Option<Params>,
    headers: Params,
    cookies: seq<Cookie>,
    requestBody: seq<JByte>)

  /** A character as a byte, one byte per character (the low eight bits, as a signed `byte`). */
  function CharByte(c: char): JByte
  {
    var v := (c as int) % 256;
    if v >= 128 then v - 256 else v
  }

  /** `getBytes()` of a line whose characters are all below U+0100. */
  function Latin1Bytes(s: string): (r: seq<JByte>)
    ensures |r| == |s| && forall i :: 0 <= i < |s| ==> r[i] == CharByte(s[i])
  {
    seq(|s|, i requires 0 <= i < |s| => CharByte(s[i]))
  }

  /**
   * The first line: split on blanks, the first piece must name a method and the second is the
   * target, split on `?` into the path and the query string.
   */
  function ParseRequestLine(line: string, methods: set<string>): (r: Option<RequestLine>)
    ensures r.Some? ==> r.value.methodName in methods
    ensures r.Some? <==> |Split(line, " ")| >= 2 && Split(line, " ")[0] in methods && |Split(Split(line, " ")[1], "?")| > 0
  {
    var slices := Split(line, " ");
    if |slices| == 0 || slices[0] !in methods || |slices| < 2 then None
    else
      var urlSlices := Split(slices[1], "?");
      if |urlSlices| == 0 then None
      else Some(RequestLine(slices[0], urlSlices[0], if |urlSlices| > 1 then Some(urlSlices[1]) else None))
  }

  /** One `key=v1,v2` parameter; a piece without a value part is an `ArrayIndexOutOfBoundsException`. */
  function ParamPair(piece: string): Option<(string, seq<string>)>
  {
    var kv := Split(piece, "=");
    if |kv| < 2 then None else Some((kv[0], Split(kv[1], ",")))
  }

  /** `parseParams`: the `&`-separated pieces, each a parameter. */
  function ParamPairs(s: string): Option<seq<(string, seq<string>)>>
  {
    MapAll(Split(s, "&"), ParamPair)
  }

  function OrEmpty(p: Option<Params>): Params
  {
    if p.Some? then p.value else map[]
  }

  /** The parameters after `parseParams(s)` on top of `base`, or `None` when it throws. */
  function AddParams(base: Option<Params>, s: string): (r: Option<Params>)
    ensures r.Some? <==> ParamPairs(s).Some?
  {
    var pairs :- ParamPairs(s);
    Some(PutAll(OrEmpty(base), pairs))
  }

  /** The position of the first blank line at or after `i`, or the number of lines. */
  function HeaderEnd(lines: seq<string>, i: nat): (e: nat)
    requires i <= |lines|
    ensures i <= e <= |lines|
    ensures e < |lines| ==> lines[e] == ""
    ensures forall k :: i <= k < e ==> lines[k] != ""
    decreases |lines| - i
  {
    if i == |lines| || lines[i] == "" then i else HeaderEnd(lines, i + 1)
  }

  /** The header lines: those after the first line and before the first blank one. */
  function HeaderLines(lines: seq<string>): (r: seq<string>)
    requires |lines| >= 1
    ensures 1 + |r| <= |lines| && r == lines[1..1 + |r|]
    ensures forall k :: 0 <= k < |r| ==> r[k] != ""
    ensures 1 + |r| < |lines| ==> lines[1 + |r|] == ""
  {
    lines[1..HeaderEnd(lines, 1)]
  }

  /**
   * One header line: the key is the text before the first `:`, the values the text from two
   * characters after it, split on `,`. No colon, or a colon at the very end, throws.
   */
  function HeaderPair(line: string): (r: Option<(string, seq<string>)>)
    ensures r.Some? <==> Contains(line, ":") && IndexOf(line, ":").value + 2 <= |line|
  {
    match IndexOf(line, ":")
    case None => None
    case Some(c) => if c + 2 > |line| then None else Some((line[..c], Split(line[c + 2..], ",")))
  }

  /** A `name=value` cookie; the pieces after the second are ignored, a missing value throws. */
  function CookieOf(raw: string): Option<Cookie>
  {
    var kv := Split(raw, "=");
    if |kv| < 2 then None else Some(Cookie(kv[0], kv[1]))
  }

  /** The cookies of the first `Cookie` value split on `"; "`, and the headers without `Cookie`. */
  function SplitCookies(headers: Params): (r: Option<(seq<Cookie>, Params)>)
    ensures r.Some? ==> r.value.1 == headers - {COOKIE} && COOKIE !in r.value.1
    ensures COOKIE !in headers ==> r == Some(([], headers))
    ensures r.Some? && COOKIE in headers ==>
      |headers[COOKIE]| > 0 && |r.value.0| == |Split(headers[COOKIE][0], "; ")| &&
      forall i :: 0 <= i < |r.value.0| ==> Some(r.value.0[i]) == CookieOf(Split(headers[COOKIE][0], "; ")[i])
    ensures r.None? <==> (COOKIE in headers &&
      (|headers[COOKIE]| == 0 || exists i :: 0 <= i < |Split(headers[COOKIE][0], "; ")| && CookieOf(Split(headers[COOKIE][0], "; ")[i]).None?))
  {
    if COOKIE !in headers then Some(([], headers))
    else if |headers[COOKIE]| == 0 then None
    else
      match MapAll(Split(headers[COOKIE][0], "; "), CookieOf)
      case None => None
      case Some(cookies) => Some((cookies, headers - {COOKIE}))
  }

  /** The parameters once the query string, if any, is parsed on top of `base`. */
  function QueryParams(base: Option<Params>, queryString: Option<string>): (r: Option<Option<Params>>)
    ensures queryString.None? ==> r == Some(base)
    ensures queryString.Some? ==> (r.Some? <==> AddParams(base, queryString.value).Some?)
    ensures queryString.Some? && r.Some? ==> r.value == AddParams(base, queryString.value)
  {
    if queryString.None? then Some(base)
    else
      match AddParams(base, queryString.value)
      case None => None
      case Some(p) => Some(Some(p))
  }

  /** The header map: the header lines put in order into a fresh map. */
  function ReadHeaders(lines: seq<string>): Option<Params>
    requires |lines| >= 1
  {
    match MapAll(HeaderLines(lines), HeaderPair)
    case None => None
    case Some(pairs) => Some(PutAll(map[], pairs))
  }

  /** `parseHeaders` on the lines, with `base` the parameters before it. */
  function ParseHead(lines: seq<string>, methods: set<string>, base: Option<Params>): Option<Head>
    requires |lines| >= 1
  {
    match ParseRequestLine(lines[0], methods)
    case None => None
    case Some(line) =>
      match QueryParams(base, line.queryString)
      case None => None
      case Some(params) =>
        match ReadHeaders(lines)
        case None => None
        case Some(table) =>
          match SplitCookies(table)
          case None => None
          case Some(split) => Some(Head(line, params, split.1, split.0))
  }

  /** The form text `parseBody` parses: the body cut to the declared length, trimmed. */
  function BodyText(body: string, headers: Params): Option<string>
  {
    if CONTENT_LENGTH !in headers then Some(Trim(body))
    else if |headers[CONTENT_LENGTH]| == 0 then None
    else
      var length :- ParseInt(headers[CONTENT_LENGTH][0]);
      if length < 0 then None else Some(Trim(body[..if length < |body| then length else |body|]))
  }

  /** The parameters after `parseBody(body)`; never `null` when it succeeds. */
  function ParseBodyParams(base: Option<Params>, headers: Params, body: string): Option<Params>
  {
    var text :- BodyText(body, headers);
    AddParams(base, text)
  }

  /** Whether the constructor parses the body: `Content-Length` is present and its first value is not `"0"`. */
  function WantsBody(headers: Params): Option<bool>
  {
    if CONTENT_LENGTH !in headers then Some(false)
    else if |headers[CONTENT_LENGTH]| == 0 then None
    else Some(headers[CONTENT_LENGTH][0] != "0")
  }

  /** The parameters once the body has been parsed, if the headers ask for it. */
  function BodyParams(head: Head, body: string): Option<Option<Params>>
  {
    match WantsBody(head.headers)
    case None => None
    case Some(wants) =>
      if !wants then Some(head.params)
      else
        match ParseBodyParams(head.params, head.headers, body)
        case None => None
        case Some(p) => Some(Some(p))
  }

  /** The constructor on the CRLF lines of the text. */
  function ParseLines(lines: seq<string>, methods: set<string>): Option<RequestData>
    requires |lines| >= 1
  {
    match ParseHead(lines, methods, None)
    case None => None
    case Some(head) =>
      match BodyParams(head, lines[|lines| - 1])
      case None => None
      case Some(params) =>
        Some(RequestData(head.line.methodName, head.line.url, head.line.queryString, params, head.headers, head.cookies,
                         Latin1Bytes(lines[|lines| - 1])))
  }

  /**
   * `new Request(data)`: fewer than two lines is `RequestInvalidException`, any failure while
   * parsing is `RequestParseException`; the body is always the bytes of the last line.
   */
  function ParseRequest(text: string, methods: set<string>): (r: Result<RequestData, RequestError>)
    ensures r == Err(RequestInvalid) <==> |Split(text, CRLF)| <= 1
  {
    var lines := Split(text, CRLF);
    if |lines| <= 1 then Err(RequestInvalid)
    else
      match ParseLines(lines, methods)
      case None => Err(RequestParse)
      case Some(d) => Ok(d)
  }

  class Request {
    var methodName: string
    var url: string
    var queryString: Option<string>
    var params: Option<Params>
    var headers: Params
    var cookies: seq<Cookie>
    var requestBody: seq<JByte>
    var session: Option<Session>

    function Data(): RequestData
      reads this`methodName, this`url, this`queryString, this`params, this`headers, this`cookies, this`requestBody
    {
      RequestData(methodName, url, queryString, params, headers, cookies, requestBody)
    }

    function CurrentHead(): Head
      reads this`methodName, this`url, this`queryString, this`params, this`headers, this`cookies
    {
      Head(RequestLine(methodName, url, queryString), params, headers, cookies)
    }

    /** A request with nothing parsed yet. */
    constructor ()
      ensures params == None && headers == map[] && cookies == [] && requestBody == [] && session == None
    {
      methodName := "";
      url := "";
      queryString := None;
      params := None;
      headers := map[];
      cookies := [];
      requestBody := [];
      session := None;
    }

    /** `parseParams`: each `&`-separated piece is put into the parameters, a later key overwriting an earlier one. */
    method ParseParams(s: string) returns (ok: bool)
      modifies this`params
      ensures ok <==> AddParams(old(params), s).Some?
      ensures ok ==> params == AddParams(old(params), s)
    {
      var pieces := Split(s, "&");
      ghost var base := OrEmpty(params);
      if params.None? {
        params := Some(map[]);
      }
      var i := 0;
      while i < |pieces|
        invariant 0 <= i <= |pieces|
        invariant MapAll(pieces[..i], ParamPair).Some?
        invariant params == Some(PutAll(base, MapAll(pieces[..i], ParamPair).value))
      {
        var kv := Split(pieces[i], "=");
        if |kv| < 2 {
          assert ParamPair(pieces[i]).None?;
          return false;
        }
        MapAllSnoc(pieces, ParamPair, i);
        PutAllSnoc(base, MapAll(pieces[..i], ParamPair).value, (kv[0], Split(kv[1], ",")));
        params := Some(params.value[kv[0] := Split(kv[1], ",")]);
        i := i + 1;
      }
      assert pieces[..i] == pieces;
      ok := true;
    }

    /**
     * `parseHeaders`: the method and target from the first line (query parameters parsed on
     * the way), the header lines into a fresh map, then the `Cookie` header into cookies.
     */
    method ParseHeaders(lines: seq<string>, methods: set<string>) returns (ok: bool)
      requires |lines| >= 1
      modifies this`methodName, this`url, this`queryString, this`params, this`headers, this`cookies
      ensures ok <==> ParseHead(lines, methods, old(params)).Some?
      ensures ok ==> CurrentHead() == ParseHead(lines, methods, old(params)).value
    {
      ok := ParseFirstLine(lines[0], methods);
      if !ok {
        return;
      }
      var table := ReadHeaderLines(lines);
      if table.None? {
        return false;
      }
      headers := table.value;
      ok := ParseCookies();
    }

    /** The request-line part of `parseHeaders`: method, path, query string and its parameters. */
    method ParseFirstLine(line: string, methods: set<string>) returns (ok: bool)
      modifies this`methodName, this`url, this`queryString, this`params
      ensures ok <==> (ParseRequestLine(line, methods).Some? &&
                       QueryParams(old(params), ParseRequestLine(line, methods).value.queryString).Some?)
      ensures ok ==> RequestLine(methodName, url, queryString) == ParseRequestLine(line, methods).value
      ensures ok ==> params == QueryParams(old(params), queryString).value
    {
      var parsed := ParseRequestLine(line, methods);
      if parsed.None? {
        return false;
      }
      methodName, url, queryString := parsed.value.methodName, parsed.value.url, parsed.value.queryString;
      ok := true;
      if queryString.Some? {
        ok := ParseParams(queryString.value);
      }
    }

    /**
     * The rest of the constructor: the last line becomes `requestBody`, and is parsed as form
     * parameters when `Content-Length` is present and not `"0"`.
     */
    method ParseRequestBody(body: string) returns (ok: bool)
      modifies this`params, this`requestBody
      ensures requestBody == Latin1Bytes(body)
      ensures ok <==> BodyParams(old(CurrentHead()), body).Some?
      ensures ok ==> params == BodyParams(old(CurrentHead()), body).value
    {
      requestBody := Latin1Bytes(body);
      if CONTENT_LENGTH in headers {
        if |headers[CONTENT_LENGTH]| == 0 {
          return false;
        }
        if headers[CONTENT_LENGTH][0] != "0" {
          ok := ParseBody(body);
          return;
        }
      }
      ok := true;
    }

    /** The cookie part of `parseHeaders`. */
    method ParseCookies() returns (ok: bool)
      modifies this`headers, this`cookies
      ensures ok <==> SplitCookies(old(headers)).Some?
      ensures ok ==> (cookies, headers) == SplitCookies(old(headers)).value
    {
      if COOKIE !in headers {
        cookies := [];
        return true;
      }
      if |headers[COOKIE]| == 0 {
        return false;
      }
      var rawCookies := Split(headers[COOKIE][0], "; ");
      var result: seq<Cookie> := [];
      var i := 0;
      while i < |rawCookies|
        invariant 0 <= i <= |rawCookies|
        invariant MapAll(rawCookies[..i], CookieOf) == Some(result)
        invariant headers == old(headers)
      {
        var kv := Split(rawCookies[i], "=");
        if |kv| < 2 {
          assert CookieOf(rawCookies[i]).None?;
          return false;
        }
        MapAllSnoc(rawCookies, CookieOf, i);
        result := result + [Cookie(kv[0], kv[1])];
        i := i + 1;
      }
      assert rawCookies[..i] == rawCookies;
      cookies := result;
      headers := headers - {COOKIE};
      ok := true;
    }

    /** `parseBody`: the form text cut to `Content-Length` and trimmed, then `parseParams`; `params` is not `null` afterwards. */
    method ParseBody(body: string) returns (ok: bool)
      modifies this`params
      ensures ok <==> ParseBodyParams(old(params), headers, body).Some?
      ensures ok ==> params == ParseBodyParams(old(params), headers, body) && params.Some?
    {
      var text: string;
      if CONTENT_LENGTH in headers {
        if |headers[CONTENT_LENGTH]| == 0 {
          return false;
        }
        var length := ParseInt(headers[CONTENT_LENGTH][0]);
        if length.None? || length.value < 0 {
          return false;
        }
        var n := if length.value < |body| then length.value else |body|;
        text := Trim(body[..n]);
      } else {
        text := Trim(body);
      }
      ok := ParseParams(text);
    }

    /**
     * `getSession(create)`: the session already attached; else the session of the first
     * `JSESSIONID` cookie the context still knows; else, when asked to, a new session under
     * `freshId` whose cookie the response receives (`setCookie`).
     */
    method GetSession(create: bool, ctx: ServletContext, freshId: string, now: int)
      returns (s: Option<Session>, setCookie: Option<Cookie>)
      modifies this`session, ctx`sessions
      ensures old(session).Some? ==>
        s == old(session) && ctx.sessions == old(ctx.sessions) && setCookie == None
      ensures old(session).None? && SessionFromCookies(cookies, old(ctx.sessions)).Some? ==>
        s == SessionFromCookies(cookies, old(ctx.sessions)) && ctx.sessions == old(ctx.sessions) && setCookie == None
      ensures old(session).None? && SessionFromCookies(cookies, old(ctx.sessions)).None? && !create ==>
        s == None && ctx.sessions == old(ctx.sessions) && setCookie == None
      ensures old(session).None? && SessionFromCookies(cookies, old(ctx.sessions)).None? && create ==>
        s == Some(Session(freshId, now)) && ctx.sessions == old(ctx.sessions)[freshId := Session(freshId, now)] &&
        setCookie == Some(Cookie(SESSION_COOKIE, freshId))
      ensures session == s
    {
      if session.Some? {
        return session, None;
      }
      var i := 0;
      while i < |cookies|
        invariant 0 <= i <= |cookies|
        invariant SessionFromCookies(cookies, ctx.sessions) == SessionFromCookies(cookies[i..], ctx.sessions)
        invariant ctx.sessions == old(ctx.sessions) && session == None
      {
        SessionFromCookiesStep(cookies, i, ctx.sessions);
        if cookies[i].key == SESSION_COOKIE {
          var current := ctx.GetSession(cookies[i].value);
          if current.Some? {
            session := current;
            return current, None;
          }
        }
        i := i + 1;
      }
      if !create {
        return None, None;
      }
      var created, cookie := ctx.CreateSession(freshId, now);
      session := Some(created);
      s, setCookie := session, Some(cookie);
    }
  }

  /** The header loop of `parseHeaders`: every line up to the first blank one, into a fresh map. */
  method ReadHeaderLines(lines: seq<string>) returns (r: Option<Params>)
    requires |lines| >= 1
    ensures r == ReadHeaders(lines)
  {
    var table: Params := map[];
    var i := 1;
    while i < |lines|
      invariant 1 <= i <= |lines|
      invariant "" !in lines[1..i]
      invariant MapAll(lines[1..i], HeaderPair).Some?
      invariant table == PutAll(map[], MapAll(lines[1..i], HeaderPair).value)
    {
      var header := lines[i];
      if header == "" {
        break;
      }
      var pair := HeaderPair(header);
      if pair.None? {
        HeaderLineFails(lines, i);
        return None;
      }
      HeaderLineAdds(lines, i);
      table := table[pair.value.0 := pair.value.1];
      i := i + 1;
    }
    HeaderLinesEnd(lines, i);
    r := Some(table);
  }

  /** A malformed line inside the header block makes the whole block fail. */
  lemma HeaderLineFails(lines: seq<string>, i: nat)
    requires 1 <= i < |lines| && lines[i] != "" && "" !in lines[1..i] && HeaderPair(lines[i]).None?
    ensures ReadHeaders(lines) == None
  {
    assert lines[1..i + 1] == lines[1..i] + [lines[i]];
    HeaderLinesReach(lines, i);
    assert HeaderLines(lines)[i - 1] == lines[i];
  }

  /** A well-formed line inside the header block adds its pair on top of the lines before it. */
  lemma HeaderLineAdds(lines: seq<string>, i: nat)
    requires 1 <= i < |lines| && lines[i] != "" && "" !in lines[1..i] && MapAll(lines[1..i], HeaderPair).Some?
    requires HeaderPair(lines[i]).Some?
    ensures "" !in lines[1..i + 1] && MapAll(lines[1..i + 1], HeaderPair).Some?
    ensures PutAll(map[], MapAll(lines[1..i + 1], HeaderPair).value) ==
      PutAll(map[], MapAll(lines[1..i], HeaderPair).value)[HeaderPair(lines[i]).value.0 := HeaderPair(lines[i]).value.1]
  {
    var xs := lines[1..i + 1];
    var init := MapAll(lines[1..i], HeaderPair).value;
    var pair := HeaderPair(lines[i]).value;
    assert xs == lines[1..i] + [lines[i]];
    assert xs[..i - 1] == lines[1..i] && xs[i - 1] == lines[i] && xs[..i] == xs;
    MapAllSnoc(xs, HeaderPair, i - 1);
    assert MapAll(xs, HeaderPair) == Some(init + [pair]);
    PutAllSnoc(map[], init, pair);
  }

  /** Lines after the first that are all non-blank up to `i` belong to the header block. */
  lemma HeaderLinesReach(lines: seq<string>, i: nat)
    requires 1 <= i < |lines| && "" !in lines[1..i + 1]
    ensures |HeaderLines(lines)| >= i
  {
    assert forall k :: 1 <= k <= i ==> lines[k] == lines[1..i + 1][k - 1];
  }

  /** The header block ends where the loop stops: at a blank line or at the end. */
  lemma HeaderLinesEnd(lines: seq<string>, i: nat)
    requires 1 <= i <= |lines| && "" !in lines[1..i]
    requires i == |lines| || lines[i] == ""
    ensures HeaderLines(lines) == lines[1..i]
  {
    assert forall k :: 1 <= k < i ==> lines[k] == lines[1..i][k - 1];
  }

  /**
   * `new Request(data)` on decoded text. The constructor's exceptions become `Err`; on success
   * the fields are those `ParseRequest` describes and no session is attached.
   */
  method NewRequest(text: string, methods: set<string>) returns (r: Result<Request, RequestError>)
    ensures r.Err? <==> ParseRequest(text, methods).Err?
    ensures r.Err? ==> r.error == ParseRequest(text, methods).error
    ensures r.Ok? ==> fresh(r.value) && r.value.Data() == ParseRequest(text, methods).value && r.value.session == None
  {
    var lines := Split(text, CRLF);
    if |lines| <= 1 {
      return Err(RequestInvalid);
    }
    var parsed := ParseLinesInto(lines, methods);
    if parsed.None? {
      return Err(RequestParse);
    }
    r := Ok(parsed.value);
  }

  /** The constructor from the `try` on: parse the head, keep the last line as body, parse the body if asked. */
  method ParseLinesInto(lines: seq<string>, methods: set<string>) returns (r: Option<Request>)
    requires |lines| >= 1
    ensures r.None? <==> ParseLines(lines, methods).None?
    ensures r.Some? ==> fresh(r.value) && r.value.Data() == ParseLines(lines, methods).value && r.value.session == None
  {
    var request := new Request();
    var ok := request.ParseHeaders(lines, methods);
    if !ok {
      assert ParseHead(lines, methods, None).None?;
      return None;
    }
    ghost var head := request.CurrentHead();
    assert ParseHead(lines, methods, None) == Some(head);
    var body := lines[|lines| - 1];
    ok := request.ParseRequestBody(body);
    if !ok {
      assert BodyParams(head, body).None?;
      return None;
    }
    assert request.Data() == RequestData(head.line.methodName, head.line.url, head.line.queryString,
      BodyParams(head, body).value, head.headers, head.cookies, Latin1Bytes(body));
    r := Some(request);
  }

  /** The search from cookie `i` on: this cookie's session if it is known, else the search from the next. */
  lemma SessionFromCookiesStep(cookies: seq<Cookie>, i: nat, sessions: map<string, Session>)
    requires i < |cookies|
    ensures SessionFromCookies(cookies[i..], sessions) ==
      if KnownSessionCookie(cookies[i], sessions) then Some(sessions[cookies[i].value])
      else SessionFromCookies(cookies[i + 1..], sessions)
  {
    assert cookies[i..][0] == cookies[i] && cookies[i..][1..] == cookies[i + 1..];
  }

  /** A `JSESSIONID` cookie naming a session the table holds. */
  predicate KnownSessionCookie(c: Cookie, sessions: map<string, Session>)
  {
    c.key == SESSION_COOKIE && c.value in sessions
  }

  /** The session of the first `JSESSIONID` cookie whose value the session table holds. */
  function SessionFromCookies(cookies: seq<Cookie>, sessions: map<string, Session>): (r: Option<Session>)
    ensures r.Some? <==> exists i :: 0 <= i < |cookies| && KnownSessionCookie(cookies[i], sessions)
    ensures r.Some? ==> exists i :: (0 <= i < |cookies| && KnownSessionCookie(cookies[i], sessions) &&
      r.value == sessions[cookies[i].value] && forall j :: 0 <= j < i ==> !KnownSessionCookie(cookies[j], sessions))
  {
    if cookies == [] then None
    else if KnownSessionCookie(cookies[0], sessions) then Some(sessions[cookies[0].value])
    else
      var r := SessionFromCookies(cookies[1..], sessions);
      assert r.Some? ==> exists i :: (0 <= i < |cookies| && KnownSessionCookie(cookies[i], sessions) &&
        r.value == sessions[cookies[i].value] && forall j :: 0 <= j < i ==> !KnownSessionCookie(cookies[j], sessions)) by {
        if r.Some? {
          var i :| 0 <= i < |cookies[1..]| && KnownSessionCookie(cookies[1..][i], sessions) &&
            r.value == sessions[cookies[1..][i].value] && forall j :: 0 <= j < i ==> !KnownSessionCookie(cookies[1..][j], sessions);
          assert cookies[i + 1] == cookies[1..][i];
          forall j | 0 <= j < i + 1
            ensures !KnownSessionCookie(cookies[j], sessions)
          {
            if j > 0 { assert cookies[j] == cookies[1..][j - 1]; }
          }
        }
      }
      assert r.Some? <== exists i :: 0 <= i < |cookies| && KnownSessionCookie(cookies[i], sessions) by {
        if exists i :: 0 <= i < |cookies| && KnownSessionCookie(cookies[i], sessions) {
          var i :| 0 <= i < |cookies| && KnownSessionCookie(cookies[i], sessions);
          assert i > 0 && cookies[1..][i - 1] == cookies[i];
        }
      }
      r
  }

  /** `getParameter` as written: a request without query string or parsed body has `params == null`. */
  function ParameterAsWritten(params: Option<Params>, key: string): (r: Result<Option<string>, LookupError>)
    ensures params.None? ==> r == Err(NullPointer)
    ensures params.Some? && key in params.value && |params.value[key]| == 0 ==> r == Err(IndexOutOfBounds)
    ensures r.Ok? ==> r.value == Parameter(params, key)
  {
    if params.None? then Err(NullPointer)
    else if key !in params.value then Ok(None)
    else if |params.value[key]| == 0 then Err(IndexOutOfBounds)
    else Ok(Some(params.value[key][0]))
  }

  /** `getParameterValues` as written: also dereferences `params`. */
  function ParameterValuesAsWritten(params: Option<Params>, key: string): (r: Result<Option<seq<string>>, LookupError>)
    ensures params.None? <==> r == Err(NullPointer)
    ensures r.Ok? ==> r.value == ParameterValues(params, key)
  {
    if params.None? then Err(NullPointer)
    else if key in params.value then Ok(Some(params.value[key])) else Ok(None)
  }

  /** `getParameter` as intended: the first value of the key, or `null` when there is none. */
  function Parameter(params: Option<Params>, key: string): (r: Option<string>)
    ensures r.Some? <==> params.Some? && key in params.value && |params.value[key]| > 0
    ensures r.Some? ==> r.value == params.value[key][0]
  {
    if params.Some? && key in params.value && |params.value[key]| > 0 then Some(params.value[key][0]) else None
  }

  /** `getParameterValues` as intended: every value of the key, or `null`. */
  function ParameterValues(params: Option<Params>, key: string): (r: Option<seq<string>>)
    ensures r.Some? <==> params.Some? && key in params.value
    ensures r.Some? ==> r.value == params.value[key]
  {
    if params.Some? && key in params.value then Some(params.value[key]) else None
  }

  /** A first line of three blank-free words splits into those words. */
  lemma RequestLineWords(m: string, target: string, version: string)
    requires !Contains(m, " ") && !Contains(target, " ") && !Contains(version, " ") && version != ""
    ensures Split(m + " " + target + " " + version, " ") == [m, target, version]
  {
    var rest := target + " " + version;
    assert Split(rest, " ") == [target, version] by {
      SplitOnce(target, version, " ");
    }
    assert Split(m + " " + rest, " ") == [m] + Split(rest, " ") by {
      SplitFirst(m, rest, " ");
    }
    assert m + " " + rest == m + " " + target + " " + version;
  }

  /** A request line `m path?query version`: the path before `?` is `url`, the text after it the query string. */
  lemma TargetWithQuery(m: string, path: string, query: string, version: string, methods: set<string>)
    requires m in methods
    requires !Contains(m, " ") && !Contains(path, " ") && !Contains(query, " ") && !Contains(version, " ")
    requires !Contains(path, "?") && !Contains(query, "?") && query != "" && version != ""
    ensures ParseRequestLine(m + " " + path + "?" + query + " " + version, methods) ==
      Some(RequestLine(m, path, Some(query)))
  {
    var target := path + "?" + query;
    var line := m + " " + path + "?" + query + " " + version;
    assert Split(line, " ") == [m, target, version] by {
      NoBlankAround(path, query);
      RequestLineWords(m, target, version);
      assert line == m + " " + target + " " + version;
    }
    SplitOnce(path, query, "?");
    LineOfWords(line, methods, [m, target, version], [path, query]);
  }

  /** The first line's parse, read off its blank-separated pieces and its target's `?` pieces. */
  lemma LineOfWords(line: string, methods: set<string>, words: seq<string>, pieces: seq<string>)
    requires Split(line, " ") == words && |words| >= 2 && words[0] in methods
    requires Split(words[1], "?") == pieces && |pieces| > 0
    ensures ParseRequestLine(line, methods) ==
      Some(RequestLine(words[0], pieces[0], if |pieces| > 1 then Some(pieces[1]) else None))
  {
  }

  /** A request line `m path version` with no `?`: the whole target is `url` and there is no query string. */
  lemma TargetWithoutQuery(m: string, path: string, version: string, methods: set<string>)
    requires m in methods
    requires !Contains(m, " ") && !Contains(path, " ") && !Contains(version, " ")
    requires !Contains(path, "?") && version != ""
    ensures ParseRequestLine(m + " " + path + " " + version, methods) == Some(RequestLine(m, path, None))
  {
    RequestLineWords(m, path, version);
    SplitOnce(path, "", "?");
    assert path + "?" + "" == path + "?";
  }

  lemma NoBlankAround(path: string, query: string)
    requires !Contains(path, " ") && !Contains(query, " ")
    ensures !Contains(path + "?" + query, " ")
  {
    ContainsChar(path, ' ');
    ContainsChar(query, ' ');
    var t := path + "?" + query;
    ContainsChar(t, ' ');
    assert forall i :: 0 <= i < |path| ==> t[i] == path[i];
    assert forall i :: |path| < i < |t| ==> t[i] == query[i - |path| - 1];
  }

  /** A header line `Key: v1,v2`: the key is the text before the colon, the values the rest split on `,`. */
  lemma HeaderLineParts(key: string, value: string)
    requires !Contains(key, ":")
    ensures HeaderPair(key + ": " + value) == Some((key, Split(value, ",")))
  {
    var line := key + ": " + value;
    FirstAfterFree(key, ":", " " + value);
    assert line == key + ":" + (" " + value);
    assert line[..|key|] == key;
    assert line[|key| + 2..] == value;
  }

  /** A parameter `key=value`: the key and the value split on `,`. */
  lemma ParamParts(key: string, value: string)
    requires !Contains(key, "=") && !Contains(value, "=") && value != ""
    ensures ParamPair(key + "=" + value) == Some((key, Split(value, ",")))
  {
    SplitOnce(key, value, "=");
  }

  /** A parameter with nothing after `=` has no value part once `split` drops it, so parsing throws. */
  lemma ParamWithoutValueFails(key: string)
    requires !Contains(key, "=")
    ensures ParamPair(key + "=") == None
    ensures ParamPair(key) == None
  {
    SplitOnce(key, "", "=");
    assert key + "=" + "" == key + "=";
  }

  /** A cookie `name=value` with a non-empty value, and one with an empty value, which throws. */
  lemma CookieParts(key: string, value: string)
    requires !Contains(key, "=") && !Contains(value, "=")
    ensures value != "" ==> CookieOf(key + "=" + value) == Some(Cookie(key, value))
    ensures value == "" ==> CookieOf(key + "=") == None
  {
    SplitOnce(key, value, "=");
    assert key + "=" + "" == key + "=";
  }

  /**
   * A piece of the parameter text that is not a parameter makes the whole parse throw; otherwise
   * each key ends up with the values of its last piece, on top of the parameters before.
   */
  lemma ParamsLastWins(base: Option<Params>, s: string, key: string)
    ensures AddParams(base, s).None? <==> exists i :: 0 <= i < |Split(s, "&")| && ParamPair(Split(s, "&")[i]).None?
    ensures AddParams(base, s).Some? ==>
      (key in AddParams(base, s).value <==>
         key in OrEmpty(base) || exists i :: 0 <= i < |Split(s, "&")| && ParamPair(Split(s, "&")[i]).value.0 == key)
    ensures AddParams(base, s).Some? ==>
      forall i :: (0 <= i < |Split(s, "&")| && ParamPair(Split(s, "&")[i]).value.0 == key &&
                   forall j :: i < j < |Split(s, "&")| ==> ParamPair(Split(s, "&")[j]).value.0 != key) ==>
                  AddParams(base, s).value[key] == ParamPair(Split(s, "&")[i]).value.1
  {
    var pieces := Split(s, "&");
    assert ParamPairs(s) == MapAll(pieces, ParamPair);
    if AddParams(base, s).Some? {
      assert AddParams(base, s).value == PutAll(OrEmpty(base), MapAll(pieces, ParamPair).value);
      PutAllMapAll(OrEmpty(base), pieces, ParamPair, key);
    } else {
      assert MapAll(pieces, ParamPair).None?;
    }
  }

  /**
   * A header table comes from the header lines alone: a key is present exactly when a header line
   * carries it, and holds the values of the last such line.
   */
  lemma HeadersLastWins(lines: seq<string>, key: string)
    requires |lines| >= 1 && ReadHeaders(lines).Some?
    ensures key in ReadHeaders(lines).value <==>
      exists i :: 0 <= i < |HeaderLines(lines)| && HeaderPair(HeaderLines(lines)[i]).value.0 == key
    ensures forall i :: (0 <= i < |HeaderLines(lines)| && HeaderPair(HeaderLines(lines)[i]).value.0 == key &&
                         forall j :: i < j < |HeaderLines(lines)| ==> HeaderPair(HeaderLines(lines)[j]).value.0 != key) ==>
                        ReadHeaders(lines).value[key] == HeaderPair(HeaderLines(lines)[i]).value.1
  {
    PutAllMapAll(map[], HeaderLines(lines), HeaderPair, key);
  }

  /** The header lines are those between the first line and the first blank one, whatever follows it. */
  lemma HeadersEndAtBlank(first: seq<string>, rest: seq<string>)
    requires |first| >= 1 && "" !in first[1..]
    ensures HeaderLines(first + [""] + rest) == first[1..]
  {
    var lines := first + [""] + rest;
    assert forall k :: 1 <= k < |first| ==> lines[k] == first[1..][k - 1];
    assert lines[|first|] == "";
    assert lines[1..|first|] == first[1..];
  }

  /**
   * With a `Content-Length` of `n`, the form text is the body cut to `n` characters (or all of
   * it, when shorter) and trimmed.
   */
  lemma BodyCutToLength(body: string, headers: Params, n: int)
    requires 0 <= n && IsInt32(n) && CONTENT_LENGTH in headers
    requires |headers[CONTENT_LENGTH]| > 0 && headers[CONTENT_LENGTH][0] == IntToString(n)
    ensures BodyText(body, headers) == Some(Trim(body[..if n < |body| then n else |body|]))
  {
    ParseIntToString(n);
  }

  /**
   * The body is parsed only when `Content-Length` is present with a first value other than
   * `"0"`; when it is, `params` is not `null` afterwards. Without `Content-Length` the parameters
   * are left as the head had them.
   */
  lemma BodyParsedOnlyWhenAsked(head: Head, body: string)
    ensures CONTENT_LENGTH !in head.headers ==> BodyParams(head, body) == Some(head.params)
    ensures CONTENT_LENGTH in head.headers && |head.headers[CONTENT_LENGTH]| > 0 && head.headers[CONTENT_LENGTH][0] == "0" ==>
      BodyParams(head, body) == Some(head.params)
    ensures CONTENT_LENGTH in head.headers && |head.headers[CONTENT_LENGTH]| == 0 ==> BodyParams(head, body) == None
    ensures CONTENT_LENGTH in head.headers && |head.headers[CONTENT_LENGTH]| > 0 && head.headers[CONTENT_LENGTH][0] != "0" ==>
      BodyParams(head, body) ==
        match ParseBodyParams(head.params, head.headers, body)
        case None => None
        case Some(p) => Some(Some(p))
  {
  }

  /** Whenever the text parses, `requestBody` is the bytes of its last CRLF line and the `Cookie` header is gone. */
  lemma ParsedRequestShape(text: string, methods: set<string>)
    requires ParseRequest(text, methods).Ok?
    ensures |Split(text, CRLF)| >= 2
    ensures ParseRequest(text, methods).value.requestBody == Latin1Bytes(Split(text, CRLF)[|Split(text, CRLF)| - 1])
    ensures COOKIE !in ParseRequest(text, methods).value.headers
    ensures ParseRequest(text, methods).value.methodName in methods
  {
    var lines := Split(text, CRLF);
    var head := ParseHead(lines, methods, None).value;
    assert ParseRequestLine(lines[0], methods) == Some(head.line);
  }

  /** A first line whose first word is not a method makes the whole request a parse error. */
  lemma UnknownMethodIsParseError(text: string, methods: set<string>)
    requires |Split(text, CRLF)| >= 2 && |Split(Split(text, CRLF)[0], " ")| > 0
    requires Split(Split(text, CRLF)[0], " ")[0] !in methods
    ensures ParseRequest(text, methods) == Err(RequestParse)
  {
  }

  /**
   * A request with neither a query string nor a parsed body keeps `params == null`, so
   * `getParameter` as written throws where the corrected lookup answers `null`.
   */
  lemma ParamsStayNull(text: string, methods: set<string>, key: string)
    requires ParseRequest(text, methods).Ok?
    requires ParseRequest(text, methods).value.queryString.None?
    requires CONTENT_LENGTH !in ParseRequest(text, methods).value.headers
    ensures ParseRequest(text, methods).value.params.None?
    ensures ParameterAsWritten(ParseRequest(text, methods).value.params, key) == Err(NullPointer)
    ensures Parameter(ParseRequest(text, methods).value.params, key).None?
  {
    var lines := Split(text, CRLF);
    var head := ParseHead(lines, methods, None).value;
    assert ParseRequestLine(lines[0], methods) == Some(head.line);
  }

  /** A value of only commas splits to no values at all, and `getParameter` as written then indexes an empty list. */
  lemma CommaOnlyValue(key: string)
    requires !Contains(key, "=")
    ensures ParamPair(key + "=,") == Some((key, []))
    ensures ParameterAsWritten(Some(map[key := []]), key) == Err(IndexOutOfBounds)
    ensures Parameter(Some(map[key := []]), key) == None
  {
    ContainsChar(",", '=');
    SplitOnce(key, ",", "=");
    assert key + "=" + "," == key + "=,";
    SplitOnce("", "", ",");
    assert "" + "," + "" == ",";
  }
}
