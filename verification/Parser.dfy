/**
 The parser as it runs: a cursor that moves over the text, loops that read
 lines from it, and a message object that is filled in on the way. Each method
 is proved to compute the function of the same part of `Message`.
 */
module Parser {
  import opened Text
  import opened Message

  /** How a parsing method ends: normally or with an exception. */
  datatype Status = Done | IncompleteMessage | ParseError | OtherError

  function StatusOf<T>(o: Outcome<T>): Status {
    match o
    case Ok(_, _) => Done
    case Incomplete => IncompleteMessage
    case ParseErr => ParseError
    case Crash => OtherError
  }

  /** A text stream with a cursor. */
  class StringIO {
    const text: string
    var pos: nat

    ghost predicate Valid()
      reads this
    {
      pos <= |text|
    }

    ghost function Left(): string
      requires Valid()
      reads this
    {
      text[pos..]
    }

    lemma LeftAt()
      requires Valid()
      ensures pos <= |text| && Left() == text[pos..]
    {
    }

    constructor (text: string)
      ensures Valid() && this.text == text && pos == 0 && Left() == text
    {
      this.text := text;
      pos := 0;
    }

    method ReadLine() returns (line: string)
      requires Valid()
      modifies this
      ensures Valid() && line == Line(old(Left())) && Left() == After(old(Left()))
    {
      var n := LineEnd(text[pos..]);
      line := text[pos..pos + n];
      assert line == text[pos..][..n] && text[pos + n..] == text[pos..][n..];
      pos := pos + n;
    }

    /** `read(n)`; a negative count reads everything. */
    method Read(n: int) returns (s: string)
      requires Valid()
      modifies this
      ensures Valid()
      ensures s == old(Left())[..if n < 0 || |old(Left())| < n then |old(Left())| else n]
      ensures Left() == old(Left())[|s|..]
    {
      var count := if n < 0 || |text| - pos < n then |text| - pos else n;
      s := text[pos..pos + count];
      assert s == text[pos..][..count] && text[pos + count..] == text[pos..][count..];
      pos := pos + count;
    }

    method Seek(to: nat)
      requires Valid() && to <= |text|
      modifies this
      ensures Valid() && Left() == text[to..]
    {
      pos := to;
    }
  }

  ghost function PrependAll(hs: seq<Header>, o: Outcome<seq<Header>>): Outcome<seq<Header>> {
    match o
    case Ok(more, rest) => Ok(hs + more, rest)
    case _ => o
  }

  lemma PrependOne(hs: seq<Header>, h: Header, o: Outcome<seq<Header>>)
    ensures PrependAll(hs, Prepend(h, o)) == PrependAll(hs + [h], o)
  {
    if o.Ok? {
      assert hs + ([h] + o.value) == hs + [h] + o.value;
    }
  }

  lemma PrependNone(o: Outcome<seq<Header>>)
    ensures PrependAll([], o) == o
  {
    if o.Ok? {
      assert [] + o.value == o.value;
    }
  }

  /** A line that is not empty is taken off the text. */
  lemma LineTaken(s: string)
    ensures (Line(s) == "" <==> s == "") && (Line(s) != "" ==> |After(s)| < |s|)
  {
  }

  /** One turn of the loop over continuation lines, and of the loop over header lines. */
  lemma FoldTurn(value: string, s: string)
    ensures Unfold(value, s)
         == if StartsBlank(Line(s)) then Unfold(value + " " + Strip(Line(s)), After(s)) else (value, s)
  {
  }

  lemma HeaderTurn(s: string, noCrlf: bool, isH2: bool)
    ensures var o, line := ParseFields(s, noCrlf, isH2), Line(s);
            if line == "\r\n" || line == "\n" || (noCrlf && line == "") then o == Ok([], After(s))
            else if !EndsLf(line) then o == Incomplete
            else
              var pair := SplitField(RStripEol(line), isH2);
              if pair.None? then o == ParseErr
              else if !EndsLf(Line(After(s))) then o == Incomplete
              else
                var unfolded := Unfold(Strip(pair.value.1), After(s));
                o == Prepend(Header(Strip(pair.value.0), unfolded.0), ParseFields(unfolded.1, noCrlf, isH2))
  {
    hide Strip, RStripEol, SplitField, Unfold, Line, After;
  }

  /** `HeaderCollection.from_stream` */
  method FromStream(stream: StringIO, noCrlf: bool, isH2: bool) returns (status: Status, headers: seq<Header>)
    requires stream.Valid()
    modifies stream
    ensures stream.Valid()
    ensures var o := ParseFields(old(stream.Left()), noCrlf, isH2);
            status == StatusOf(o) && (status == Done ==> headers == o.value && stream.Left() == o.rest)
  {
    hide Strip, RStripEol, SplitField, ParseFields, Unfold, Line, After, StringIO.Left, StringIO.Valid;
    headers := [];
    ghost var start := stream.Left();
    ghost var cur := start;
    PrependNone(ParseFields(start, noCrlf, isH2));
    var line := stream.ReadLine();
    while !(line == "\r\n" || line == "\n")
      invariant stream.Valid() && line == Line(cur) && stream.Left() == After(cur)
      invariant ParseFields(start, noCrlf, isH2) == PrependAll(headers, ParseFields(cur, noCrlf, isH2))
      decreases |cur|
    {
      HeaderTurn(cur, noCrlf, isH2);
      LineTaken(cur);
      if noCrlf && line == "" {
        break;
      }
      if line == "" || line[|line| - 1] != '\n' {
        return IncompleteMessage, [];
      }
      var pair := SplitField(RStripEol(line), isH2);
      if pair.None? {
        return ParseError, [];
      }
      var name, value := Strip(pair.value.0), Strip(pair.value.1);
      line := stream.ReadLine();
      if !EndsLf(line) {
        return IncompleteMessage, [];
      }
      ghost var rest := After(cur);
      while StartsBlank(line)
        invariant stream.Valid() && line == Line(rest) && stream.Left() == After(rest) && |rest| < |cur|
        invariant Unfold(value, rest) == Unfold(Strip(pair.value.1), After(cur))
        decreases |rest|
      {
        FoldTurn(value, rest);
        LineTaken(rest);
        value := value + " " + Strip(line);
        rest := After(rest);
        line := stream.ReadLine();
      }
      FoldTurn(value, rest);
      PrependOne(headers, Header(name, value), ParseFields(rest, noCrlf, isH2));
      headers := headers + [Header(name, value)];
      cur := rest;
    }
    HeaderTurn(cur, noCrlf, isH2);
    status := Done;
    assert headers + [] == headers;
  }

  lemma PrependTwice(a: string, b: string, o: Outcome<string>)
    ensures PrependText(a, PrependText(b, o)) == PrependText(a + b, o)
  {
    if o.Ok? {
      assert a + (b + o.value) == a + b + o.value;
    }
  }

  /** One turn of the loop over chunks. */
  lemma ChunkTurn(s: string)
    ensures var o, line := ReadChunks(s), Line(s);
            if line == "" then o == Incomplete
            else if ChunkSize(line).None? then o == ParseErr
            else if ChunkSize(line).value == 0 then o == Ok(line, After(s))
            else
              var chunk := Line(After(s));
              var length := |RStripEol(chunk)|;
              if length < ChunkSize(line).value || !EndsLf(chunk) then o == Incomplete
              else if length != ChunkSize(line).value then o == ParseErr
              else o == PrependText(line + chunk, ReadChunks(After(After(s))))
  {
    hide ChunkSize, RStripEol;
  }

  lemma ResponseInParts(method_: string, s: string)
    ensures var first, o := ParseStatusLine(s), ParseResponse(method_, s);
            if first.Ok? then
              var content := ParseContent(FramingUnder(method_, StatusCode(first.value.status).value), first.rest);
              && StatusOf(o) == StatusOf(content)
              && (content.Ok? ==> o == Ok(Response(first.value, content.value), content.rest))
            else StatusOf(o) == StatusOf(first)
  {
    hide ParseStatusLine, ParseContent, StatusCode, FramingUnder;
  }

  lemma SkipTurn(s: string)
    ensures SkipEmptyLines(s) == if s != "" && IsEmptyLine(Line(s)) then SkipEmptyLines(After(s)) else s
  {
  }

  /** A request or response object; `method_` is the request's own method or that of the request answered. */
  class HttpMessage {
    var method_: string
    var uri: string
    var version: string
    var status: string
    var reason: Option<string>
    var headers: seq<Header>
    var trailer: seq<Header>
    var body: string
    var originalLength: nat

    constructor (method_: string)
      ensures this.method_ == method_ && version == DEFAULT_VERSION && reason == None
      ensures headers == [] && trailer == [] && body == ""
    {
      this.method_, uri, version, status, reason := method_, "", DEFAULT_VERSION, "", None;
      headers, trailer, body, originalLength := [], [], "", 0;
    }

    ghost function AsContent(): Content
      reads this
    {
      Content(headers, Body(body, trailer))
    }

    ghost function AsRequest(): Request
      reads this
    {
      Request(RequestLine(method_, uri, version), AsContent())
    }

    ghost function AsResponse(): Response
      reads this
    {
      Response(StatusLine(version, status, reason), AsContent())
    }

    /** One turn of the chunk loop; the lines read are added to `body`. */
    method ReadChunk(stream: StringIO) returns (st: Status, last: bool)
      requires stream.Valid()
      modifies stream, this`body
      ensures stream.Valid()
      ensures st != Done ==> st == StatusOf(ReadChunks(old(stream.Left())))
      ensures st == Done && last ==>
                ReadChunks(old(stream.Left())) == Ok(Line(old(stream.Left())), stream.Left())
                && body == old(body) + Line(old(stream.Left()))
      ensures st == Done && !last ==>
                old(body) <= body && |stream.Left()| < |old(stream.Left())|
                && ReadChunks(old(stream.Left())) == PrependText(body[|old(body)|..], ReadChunks(stream.Left()))
    {
      hide ChunkSize, RStripEol, ReadChunks, Line, After, StringIO.Left, StringIO.Valid;
      ChunkTurn(stream.Left());
      LineTaken(stream.Left());
      LineTaken(After(stream.Left()));
      var line := stream.ReadLine();
      if line == "" {
        return IncompleteMessage, false;
      }
      body := body + line;
      var size := ChunkSize(line);
      if size.None? {
        return ParseError, false;
      }
      if size.value == 0 {
        return Done, true;
      }
      var chunk := stream.ReadLine();
      body := body + chunk;
      var length := |RStripEol(chunk)|;
      if length < size.value || !EndsLf(chunk) {
        return IncompleteMessage, false;
      }
      if length != size.value {
        return ParseError, false;
      }
      assert body[|old(body)|..] == line + chunk;
      return Done, false;
    }

    /** The chunk loop of `read_chunked_body`. */
    method ReadChunkLines(stream: StringIO) returns (st: Status)
      requires stream.Valid() && body == ""
      modifies stream, this`body
      ensures stream.Valid()
      ensures var o := ReadChunks(old(stream.Left()));
              st == StatusOf(o) && (st == Done ==> body == o.value && stream.Left() == o.rest)
    {
      hide ReadChunks;
      ghost var first := ReadChunks(stream.Left());
      assert first.Ok? ==> "" + first.value == first.value;
      var last := false;
      while !last
        invariant stream.Valid()
        invariant !last ==> first == PrependText(body, ReadChunks(stream.Left()))
        invariant last ==> first == Ok(body, stream.Left())
        decreases !last, |stream.Left()|
      {
        ghost var before := body;
        st, last := ReadChunk(stream);
        if st != Done {
          return;
        }
        if !last {
          ghost var lines := body[|before|..];
          assert body == before + lines;
          PrependTwice(before, lines, ReadChunks(stream.Left()));
        }
      }
      st := Done;
    }

    /** `read_chunked_body` */
    method ReadChunked(stream: StringIO) returns (st: Status)
      requires stream.Valid() && body == "" && trailer == []
      modifies stream, this`body, this`trailer
      ensures stream.Valid()
      ensures var o := ReadChunkedBody(old(stream.Left()));
              st == StatusOf(o) && (st == Done ==> Body(body, trailer) == o.value && stream.Left() == o.rest)
    {
      hide ReadChunks, ParseFields, RStripEol, CountLf, LastChars;
      st := ReadChunkLines(stream);
      if st != Done {
        return;
      }
      var at := stream.pos;
      ghost var rest := stream.Left();
      var end := stream.Read(2);
      if end != "" && RStripEol(end) == "" {
        body := body + end;
        st := if CountLf(LastChars(body, 3)) != 2 then IncompleteMessage else Done;
        return;
      } else if end == "" {
        return IncompleteMessage;
      }
      stream.Seek(at);
      var trailer' := [];
      st, trailer' := FromStream(stream, true, false);
      trailer := trailer';
    }

    /** `read_sized_body` */
    method ReadSized(stream: StringIO) returns (st: Status)
      requires stream.Valid() && trailer == []
      modifies stream, this`body
      ensures stream.Valid()
      ensures var o := ReadSizedBody(headers, old(stream.Left()));
              st == StatusOf(o) && (st == Done ==> Body(body, trailer) == o.value && stream.Left() == o.rest)
    {
      hide Get, ParseInt, StringIO.Left, StringIO.Valid;
      var length := Get(headers, "Content-Length");
      if length.None? || ParseInt(length.value, 10).None? {
        return OtherError;
      }
      var size := ParseInt(length.value, 10).value;
      body := stream.Read(size);
      if |body| > size {
        st := ParseError;
      } else if |body| < size && Get(headers, "expect") == Some("100-continue") {
        st := Done;
      } else if |body| < size {
        st := IncompleteMessage;
      } else {
        st := Done;
      }
    }

    /** `parse_headers` and `parse_body`; the framing is the one the two classes choose from the headers. */
    method ParseHeadersAndBody(stream: StringIO, framingOf: seq<Header> -> Framing) returns (st: Status)
      requires stream.Valid() && trailer == []
      modifies stream, this`headers, this`body, this`trailer
      ensures stream.Valid()
      ensures var o := ParseContent(framingOf, old(stream.Left()));
              st == StatusOf(o) && (st == Done ==> AsContent() == o.value && stream.Left() == o.rest)
    {
      hide ParseFields, ReadChunkedBody, ReadSizedBody, StringIO.Left, StringIO.Valid;
      var headers' := [];
      st, headers' := FromStream(stream, false, false);
      if st != Done {
        return;
      }
      headers := headers';
      body := "";
      match framingOf(headers) {
        case NoBody => st := Done;
        case Chunked => st := ReadChunked(stream);
        case Sized => st := ReadSized(stream);
        case ToClose => body := stream.Read(-1);
        case Refused => st := ParseError;
        case Unsupported => st := OtherError;
      }
    }

    /** `Request.parse_firstline` */
    method ParseRequestFirstLine(stream: StringIO) returns (st: Status)
      requires stream.Valid() && version == DEFAULT_VERSION
      modifies stream, this`method_, this`uri, this`version
      ensures stream.Valid()
      ensures var o := ParseRequestLine(old(stream.Left()));
              st == StatusOf(o)
              && (st == Done ==> RequestLine(method_, uri, version) == o.value && stream.Left() == o.rest)
    {
      hide Words, RStripEol, SkipEmptyLines, Line, After, StringIO.Left, StringIO.Valid;
      ghost var start := stream.Left();
      LineTaken(start);
      var line := stream.ReadLine();
      if line == "" {
        return OtherError;
      }
      if line[|line| - 1] != '\n' {
        return IncompleteMessage;
      }
      ghost var cur := start;
      while IsEmptyLine(line) && |line| > 0
        invariant stream.Valid() && line == Line(cur) && stream.Left() == After(cur)
        invariant SkipEmptyLines(start) == SkipEmptyLines(cur)
        decreases |cur|
        modifies stream
      {
        SkipTurn(cur);
        LineTaken(cur);
        cur := After(cur);
        line := stream.ReadLine();
      }
      SkipTurn(cur);
      LineTaken(cur);
      var words := Words(RStripEol(line));
      if |words| == 3 {
        method_, uri, version := words[0], words[1], words[2];
      } else if |words| == 2 {
        method_, uri := words[0], words[1];
      } else {
        return ParseError;
      }
      st := if method_ in METHODS then Done else ParseError;
    }

    /** `Request(text)`: `parse_text` on a new request */
    method ParseRequestText(text: string) returns (st: Status)
      requires version == DEFAULT_VERSION && trailer == []
      modifies this
      ensures var o := ParseRequest(text);
              st == StatusOf(o)
              && (st == Done ==>
                    AsRequest() == o.value && 0 < originalLength <= |text| && text[originalLength..] == o.rest)
    {
      hide ParseRequestLine, ParseContent, StringIO.Left, StringIO.Valid;
      var stream := new StringIO(text);
      st := ParseRequestFirstLine(stream);
      if st == Done {
        st := ParseHeadersAndBody(stream, RequestFraming);
        originalLength := stream.pos;
        stream.LeftAt();
      }
    }

    /** `Response.parse_firstline` */
    method ParseResponseFirstLine(stream: StringIO) returns (st: Status)
      requires stream.Valid() && reason == None
      modifies stream, this`version, this`status, this`reason
      ensures stream.Valid()
      ensures var o := ParseStatusLine(old(stream.Left()));
              st == StatusOf(o)
              && (st == Done ==> StatusLine(version, status, reason) == o.value && stream.Left() == o.rest)
    {
      hide Words, RStripEol, StatusCode, Line, After, StringIO.Left, StringIO.Valid;
      LineTaken(stream.Left());
      var line := stream.ReadLine();
      if line == "" {
        return OtherError;
      }
      if line[|line| - 1] != '\n' {
        return IncompleteMessage;
      }
      var words := Words(RStripEol(line));
      if |words| >= 3 {
        version, status := words[0], words[1];
        reason := Some(Join(" ", words[2..]));
      } else if |words| == 2 {
        version, status := words[0], words[1];
      } else {
        return ParseError;
      }
      st := if StatusCode(status).None? then ParseError else Done;
    }

    /** `Response(text, method=...)`: `parse_text` on a new response */
    method ParseResponseText(text: string) returns (st: Status)
      requires reason == None && trailer == []
      modifies this
      ensures method_ == old(method_)
      ensures var o := ParseResponse(method_, text);
              st == StatusOf(o)
              && (st == Done ==>
                    AsResponse() == o.value && 0 < originalLength <= |text| && text[originalLength..] == o.rest)
    {
      hide ParseStatusLine, ParseContent, ParseResponse, StatusCode, FramingUnder, StringIO.Left, StringIO.Valid;
      ResponseInParts(method_, text);
      var stream := new StringIO(text);
      st := ParseResponseFirstLine(stream);
      if st == Done {
        st := ParseHeadersAndBody(stream, FramingUnder(method_, StatusCode(status).value));
        originalLength := stream.pos;
        stream.LeftAt();
      }
    }
  }
}
