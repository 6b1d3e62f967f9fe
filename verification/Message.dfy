/**
 What the HTTP/1 message parser computes, as functions of the text left in the
 stream: header sections, bodies, whole requests and responses, and the
 printer they are the inverse of.
 */
module Message {
  import opened Text

  datatype Header = Header(name: string, value: string)

  /**
   How reading ends: with a value and the text left after it, with
   IncompleteMessage, with another ParseError, or with an exception that is no
   ParseError at all (ValueError, IndexError, the framework's own Error).
   */
  datatype Outcome<+T> = Ok(value: T, rest: string) | Incomplete | ParseErr | Crash

  // ----------------------------------------------------------- header lookup

  predicate SameName(a: string, b: string) {
    Lower(a) == Lower(b)
  }

  /** `headers.get(name)`: the value of the first header of that name. */
  function Get(hs: seq<Header>, name: string): Option<string> {
    if hs == [] then None
    else if SameName(hs[0].name, name) then Some(hs[0].value)
    else Get(hs[1..], name)
  }

  predicate Has(hs: seq<Header>, name: string) {
    Get(hs, name).Some?
  }

  // ---------------------------------------------------------- header section

  /** One header line, its end already stripped, cut into name and value. */
  function SplitField(line: string, isH2: bool): Option<(string, string)> {
    if isH2 && line != "" && line[0] == ':' then
      match SplitOnce(line[1..], ':')
      case None => Some((line, ""))
      case Some(pair) => Some((":" + pair.0, pair.1))
    else
      SplitOnce(line, ':')
  }

  predicate StartsBlank(line: string) {
    line != "" && IsBlank(line[0])
  }

  /** Adds the continuation lines that `s` starts with to `value`. */
  function Unfold(value: string, s: string): (r: (string, string))
    ensures |r.1| <= |s|
    decreases |s|
  {
    if StartsBlank(Line(s)) then Unfold(value + " " + Strip(Line(s)), After(s)) else (value, s)
  }

  function Prepend(h: Header, o: Outcome<seq<Header>>): Outcome<seq<Header>> {
    match o
    case Ok(hs, rest) => Ok([h] + hs, rest)
    case _ => o
  }

  /** `HeaderCollection.from_stream` */
  function ParseFields(s: string, noCrlf: bool, isH2: bool): (r: Outcome<seq<Header>>)
    ensures r.Ok? ==> |r.rest| <= |s|
    decreases |s|
  {
    var line := Line(s);
    var rest := After(s);
    if line == "\r\n" || line == "\n" then Ok([], rest)
    else if noCrlf && line == "" then Ok([], rest)
    else if !EndsLf(line) then Incomplete
    else
      match SplitField(RStripEol(line), isH2)
      case None => ParseErr
      case Some(pair) =>
        if !EndsLf(Line(rest)) then Incomplete
        else
          var unfolded := Unfold(Strip(pair.1), rest);
          Prepend(Header(Strip(pair.0), unfolded.0), ParseFields(unfolded.1, noCrlf, isH2))
  }

  // ------------------------------------------------------------------ bodies

  datatype Body = Body(text: string, trailer: seq<Header>)

  /** How the end of a body is found. */
  datatype Framing = NoBody | Chunked | Sized | ToClose | Refused | Unsupported

  /** The last transfer coding of the first Transfer-Encoding header is `chunked`. */
  predicate EndsInChunked(hs: seq<Header>) {
    var coding := Get(hs, "Transfer-Encoding");
    coding.Some? && Lower(Strip(AfterLast(coding.value, ','))) == "chunked"
  }

  function RequestFraming(hs: seq<Header>): Framing {
    if Has(hs, "Transfer-Encoding") then if EndsInChunked(hs) then Chunked else Refused
    else if Has(hs, "Content-Length") then Sized
    else NoBody
  }

  function ResponseFraming(method_: string, code: int, hs: seq<Header>): Framing {
    if method_ == "HEAD" then NoBody
    else if 100 <= code <= 199 || code == 204 || code == 304 then NoBody
    else if method_ == "CONNECT" && 200 <= code <= 299 then Unsupported
    else if Has(hs, "Transfer-Encoding") then if EndsInChunked(hs) then Chunked else ToClose
    else if Has(hs, "Content-Length") then Sized
    else ToClose
  }

  /** The number on a chunk-size line, extensions dropped; None if the line is refused. */
  function ChunkSize(line: string): (n: Option<nat>) {
    match ParseInt(Before(RStripEol(line), ';'), 16)
    case None => None
    case Some(n) => if n < 0 then None else Some(n)
  }

  function PrependText(t: string, o: Outcome<string>): Outcome<string> {
    match o
    case Ok(text, rest) => Ok(t + text, rest)
    case _ => o
  }

  /** The chunks of a chunked body, up to and with the size line of the last one. */
  function ReadChunks(s: string): (r: Outcome<string>)
    ensures r.Ok? ==> |r.rest| <= |s|
    decreases |s|
  {
    var line := Line(s);
    if line == "" then Incomplete
    else
      match ChunkSize(line)
      case None => ParseErr
      case Some(size) =>
        if size == 0 then Ok(line, After(s))
        else
          var chunk := Line(After(s));
          var length := |RStripEol(chunk)|;
          if length < size || !EndsLf(chunk) then Incomplete
          else if length != size then ParseErr
          else PrependText(line + chunk, ReadChunks(After(After(s))))
  }

  function CountLf(s: string): nat {
    if s == "" then 0 else (if s[0] == '\n' then 1 else 0) + CountLf(s[1..])
  }

  function LastChars(s: string, n: nat): string {
    if |s| <= n then s else s[|s| - n..]
  }

  /** What ends a chunked body: a line end that belongs to it, or a trailer section. */
  function FinishChunked(text: string, rest: string): (r: Outcome<Body>)
    ensures r.Ok? ==> |r.rest| <= |rest|
  {
    var end := rest[..if |rest| < 2 then |rest| else 2];
    if end != "" && RStripEol(end) == "" then
      if CountLf(LastChars(text + end, 3)) != 2 then Incomplete
      else Ok(Body(text + end, []), rest[|end|..])
    else if end == "" then Incomplete
    else
      match ParseFields(rest, true, false)
      case Ok(trailer, rest') => Ok(Body(text, trailer), rest')
      case Incomplete => Incomplete
      case ParseErr => ParseErr
      case Crash => Crash
  }

  /** `read_chunked_body` */
  function ReadChunkedBody(s: string): (r: Outcome<Body>)
    ensures r.Ok? ==> |r.rest| <= |s|
  {
    match ReadChunks(s)
    case Ok(text, rest) => FinishChunked(text, rest)
    case Incomplete => Incomplete
    case ParseErr => ParseErr
    case Crash => Crash
  }

  predicate ExpectsContinue(hs: seq<Header>) {
    Get(hs, "expect") == Some("100-continue")
  }

  /** `read_sized_body`; a missing or malformed length is no ParseError. */
  function ReadSizedBody(hs: seq<Header>, s: string): (r: Outcome<Body>)
    ensures r.Ok? ==> |r.rest| <= |s|
  {
    var length := Get(hs, "Content-Length");
    if length.None? || ParseInt(length.value, 10).None? then Crash
    else
      var size := ParseInt(length.value, 10).value;
      var taken := if size < 0 || |s| < size then |s| else size;
      if taken > size then ParseErr
      else if taken < size && !ExpectsContinue(hs) then Incomplete
      else Ok(Body(s[..taken], []), s[taken..])
  }

  function ReadBody(framing: Framing, hs: seq<Header>, s: string): (r: Outcome<Body>)
    ensures r.Ok? ==> |r.rest| <= |s|
  {
    match framing
    case NoBody => Ok(Body("", []), s)
    case Chunked => ReadChunkedBody(s)
    case Sized => ReadSizedBody(hs, s)
    case ToClose => Ok(Body(s, []), "")
    case Refused => ParseErr
    case Unsupported => Crash
  }

  // ---------------------------------------------------------------- messages

  /** What follows the first line of a message. */
  datatype Content = Content(headers: seq<Header>, body: Body)

  function ParseContent(framingOf: seq<Header> -> Framing, s: string): (r: Outcome<Content>)
    ensures r.Ok? ==> |r.rest| <= |s|
  {
    match ParseFields(s, false, false)
    case Incomplete => Incomplete
    case ParseErr => ParseErr
    case Crash => Crash
    case Ok(headers, rest) =>
      match ReadBody(framingOf(headers), headers, rest)
      case Ok(body, rest') => Ok(Content(headers, body), rest')
      case Incomplete => Incomplete
      case ParseErr => ParseErr
      case Crash => Crash
  }

  const METHODS: seq<string> := [
    "ACL", "BASELINE-CONTROL", "BIND", "CHECKIN", "CHECKOUT", "CONNECT", "COPY", "DELETE", "GET",
    "HEAD", "LABEL", "LINK", "LOCK", "MERGE", "MKACTIVITY", "MKCALENDAR", "MKCOL", "MKREDIRECTREF",
    "MKWORKSPACE", "MOVE", "OPTIONS", "ORDERPATCH", "PATCH", "POST", "PRI", "PROPFIND", "PROPPATCH",
    "PUT", "REBIND", "REPORT", "SEARCH", "TRACE", "UNBIND", "UNCHECKOUT", "UNLINK", "UNLOCK", "UPDATE",
    "UPDATEREDIRECTREF", "POT", "GFT", "PUTA", "GETA", "OPTIONA", "VERSION-CONTROL", "PURGE", "UNKNOWN"]

  const DEFAULT_VERSION := "HTTP/0.9"

  datatype RequestLine = RequestLine(method_: string, uri: string, version: string)

  datatype Request = Request(line: RequestLine, content: Content)

  /** The optional empty lines before a request line, as the pattern `^[\r]?$` matches them. */
  predicate IsEmptyLine(line: string) {
    line == "" || line == "\r" || line == "\n" || line == "\r\n"
  }

  function SkipEmptyLines(s: string): (r: string)
    ensures |r| <= |s|
    decreases |s|
  {
    if s != "" && IsEmptyLine(Line(s)) then SkipEmptyLines(After(s)) else s
  }

  function RequestLineOf(words: seq<string>): Option<RequestLine> {
    if (|words| == 3 || |words| == 2) && words[0] in METHODS
    then Some(RequestLine(words[0], words[1], if |words| == 3 then words[2] else DEFAULT_VERSION))
    else None
  }

  function ParseRequestLine(s: string): (r: Outcome<RequestLine>)
    ensures r.Ok? ==> |r.rest| < |s|
  {
    if s == "" then Crash
    else if !EndsLf(Line(s)) then Incomplete
    else
      var t := SkipEmptyLines(s);
      match RequestLineOf(Words(RStripEol(Line(t))))
      case None => ParseErr
      case Some(line) => Ok(line, After(t))
  }

  /** `Request(text)` for a non-empty text; `original_length` is the length of the text less `rest`. */
  function ParseRequest(s: string): (r: Outcome<Request>)
    ensures r.Ok? ==> |r.rest| < |s|
  {
    match ParseRequestLine(s)
    case Incomplete => Incomplete
    case ParseErr => ParseErr
    case Crash => Crash
    case Ok(line, rest) =>
      match ParseContent(RequestFraming, rest)
      case Ok(content, rest') => Ok(Request(line, content), rest')
      case Incomplete => Incomplete
      case ParseErr => ParseErr
      case Crash => Crash
  }

  datatype StatusLine = StatusLine(version: string, status: string, reason: Option<string>)

  datatype Response = Response(line: StatusLine, content: Content)

  function Join(sep: string, words: seq<string>): string {
    if words == [] then "" else if |words| == 1 then words[0] else words[0] + sep + Join(sep, words[1..])
  }

  function StatusCode(status: string): Option<int> {
    match ParseInt(status, 10)
    case None => None
    case Some(code) => if 99 < code < 600 then Some(code) else None
  }

  function ParseStatusLine(s: string): (r: Outcome<StatusLine>)
    ensures r.Ok? ==> |r.rest| < |s| && StatusCode(r.value.status).Some?
  {
    if s == "" then Crash
    else if !EndsLf(Line(s)) then Incomplete
    else
      var words := Words(RStripEol(Line(s)));
      if |words| < 2 || StatusCode(words[1]).None? then ParseErr
      else
        Ok(StatusLine(words[0], words[1], if |words| == 2 then None else Some(Join(" ", words[2..]))), After(s))
  }

  function FramingUnder(method_: string, code: int): seq<Header> -> Framing {
    hs => ResponseFraming(method_, code, hs)
  }

  /** `Response(text, method=method_)` for a non-empty text. */
  function ParseResponse(method_: string, s: string): (r: Outcome<Response>)
    ensures r.Ok? ==> |r.rest| < |s|
  {
    match ParseStatusLine(s)
    case Incomplete => Incomplete
    case ParseErr => ParseErr
    case Crash => Crash
    case Ok(line, rest) =>
      match ParseContent(FramingUnder(method_, StatusCode(line.status).value), rest)
      case Ok(content, rest') => Ok(Response(line, content), rest')
      case Incomplete => Incomplete
      case ParseErr => ParseErr
      case Crash => Crash
  }

  // ---------------------------------------------------------------- printing

  /** `str(headers)` */
  function PrintHeaders(hs: seq<Header>): string {
    if hs == [] then "" else hs[0].name + ": " + hs[0].value + "\r\n" + PrintHeaders(hs[1..])
  }

  /** `str(request)` */
  function PrintRequest(r: Request): string {
    r.line.method_ + " " + r.line.uri + " " + r.line.version + "\r\n"
    + PrintHeaders(r.content.headers) + "\r\n" + r.content.body.text + PrintHeaders(r.content.body.trailer)
  }
}
