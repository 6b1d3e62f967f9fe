/**
 The parser on whole messages. Every well-formed message is parsed to what it
 means with exactly its own text consumed, whatever follows; and the exact
 messages are given for which every part cut short is reported incomplete.
 */
module SelfDelimiting {
  import opened Text
  import opened Message
  import opened Grammar
  import opened HeaderSections
  import opened ChunkedBodies

  // ------------------------------------------------------ header section and body

  lemma SizedBodyRead(hs: seq<Header>, text: string, t: string)
    requires ValidBody(Sized, hs, Plain(text))
    ensures ReadSizedBody(hs, text + t) == Ok(Body(text, []), t)
  {
    var s := text + t;
    assert s[..|text|] == text && s[|text|..] == t;
  }

  lemma BodyRead(framing: Framing, hs: seq<Header>, b: WireBody, t: string)
    requires ValidBody(framing, hs, b)
    ensures ReadBody(framing, hs, BodyWire(b, t)) == Ok(BodyMeaning(b), t)
  {
    hide ReadSizedBody, ReadChunkedBody;
    match b {
      case Empty =>
      case Plain(text) => SizedBodyRead(hs, text, t);
      case Chunks(_, _, _) => ChunkedBodyRead(b, t);
    }
  }

  lemma ContentRead(framingOf: seq<Header> -> Framing, fs: seq<Field>, b: WireBody, t: string)
    requires ValidContent(framingOf, fs, b)
    ensures ParseContent(framingOf, ContentWire(fs, b, t)) == Ok(ContentMeaning(fs, b), t)
  {
    hide ReadBody, ParseFields;
    SectionRead(fs, BodyWire(b, t), false, false);
    BodyRead(framingOf(HeadersOf(fs)), HeadersOf(fs), b, t);
  }

  /** What keeps a body from being accepted when it is cut short. */
  predicate CutSafeBody(hs: seq<Header>, b: WireBody) {
    match b
    case Empty => true
    case Plain(text) => text == "" || !ExpectsContinue(hs)
    case Chunks(_, _, trailer) => Unfolded(trailer)
  }

  lemma BodyCut(framing: Framing, hs: seq<Header>, b: WireBody, q: string, u: string)
    requires ValidBody(framing, hs, b) && CutSafeBody(hs, b)
    requires q + u == BodyWire(b, "") && u != ""
    ensures ReadBody(framing, hs, q) == Incomplete
  {
    hide ReadChunkedBody;
    match b {
      case Empty =>
      case Plain(text) => assert |q| + |u| == |text|;
      case Chunks(_, _, _) => ChunkedBodyCut(b, q, u);
    }
  }

  /** No part of the body is taken for the whole. */
  ghost predicate NeverShort(framing: Framing, hs: seq<Header>, b: WireBody) {
    forall q | q < BodyWire(b, "") :: ReadBody(framing, hs, q) == Incomplete
  }

  lemma SafeNeverShort(framing: Framing, hs: seq<Header>, b: WireBody)
    requires ValidBody(framing, hs, b) && CutSafeBody(hs, b)
    ensures NeverShort(framing, hs, b)
  {
    hide ReadBody, ValidBody, CutSafeBody, BodyWire;
    var body := BodyWire(b, "");
    forall q | q < body ensures ReadBody(framing, hs, q) == Incomplete {
      assert q + body[|q|..] == body;
      BodyCut(framing, hs, b, q, body[|q|..]);
    }
  }

  lemma UnreadableNeverShort(hs: seq<Header>, b: WireBody)
    requires b.Chunks? && SizedChunks(b.chunks) && !AllReadable(b.chunks)
    ensures NeverShort(Chunked, hs, b)
  {
    hide ReadChunks, AllReadable, ChunksWire;
    var t := SizeLine(b.last.size, b.last.ext) + SectionWire(b.trailer, "");
    forall q | q < BodyWire(b, "") ensures ReadBody(Chunked, hs, q) == Incomplete {
      UnreadableCut(b.chunks, t, q);
    }
  }

  lemma ContentCut(framingOf: seq<Header> -> Framing, fs: seq<Field>, b: WireBody, p: string, u: string)
    requires ValidFields(fs, false) && NeverShort(framingOf(HeadersOf(fs)), HeadersOf(fs), b)
    requires p + u == ContentWire(fs, b, "") && u != ""
    ensures ParseContent(framingOf, p) == Incomplete
  {
    hide ReadBody, ParseFields, BodyWire;
    var body := BodyWire(b, "");
    SectionRead(fs, body, false, false);
    if |u| > |body| {
      FieldsCut(p, u, false);
    } else {
      var q, u' := body[..|body| - |u|], body[|body| - |u|..];
      assert body == q + u';
      SectionAppend(fs, q, u');
      var w := ContentWire(fs, b, "");
      assert w[..|w| - |u|] == p && w[..|w| - |u|] == SectionWire(fs, q);
      SectionRead(fs, q, false, false);
    }
  }

  /** Where a body is not cut safe, a part of it is accepted as the whole. */
  lemma UnsafeBody(framing: Framing, hs: seq<Header>, b: WireBody) returns (q: string)
    requires ValidBody(framing, hs, b) && !CutSafeBody(hs, b)
    ensures q < BodyWire(b, "") && ReadBody(framing, hs, q).Ok?
  {
    hide ReadChunkedBody, ParseInt;
    match b {
      case Plain(text) =>
        q := "";
      case Chunks(chunks, last, trailer) =>
        FoldedTrailerCut(b);
        q := ChunksWire(chunks, SizeLine(last.size, last.ext) + CutAfterFold(trailer));
    }
  }

  /** The same of a message with its headers. */
  lemma UnsafeCut(framingOf: seq<Header> -> Framing, fs: seq<Field>, b: WireBody) returns (p: string)
    requires ValidContent(framingOf, fs, b) && !CutSafeBody(HeadersOf(fs), b)
    ensures p < ContentWire(fs, b, "") && ParseContent(framingOf, p).Ok?
  {
    hide ParseFields, ReadBody, BodyWire, ValidBody, SectionWire, CutSafeBody;
    var hs := HeadersOf(fs);
    var body := BodyWire(b, "");
    var q := UnsafeBody(framingOf(hs), hs, b);
    p := SectionWire(fs, q);
    SectionRead(fs, q, false, false);
    assert body == q + body[|q|..];
    SectionAppend(fs, q, body[|q|..]);
  }

  // --------------------------------------------------------------------- requests

  predicate TokenLine(l: RequestLine, short: bool) {
    Token(l.method_) && Token(l.uri) && (short || Token(l.version))
  }

  lemma RequestLineWords(l: RequestLine, short: bool)
    requires TokenLine(l, short)
    ensures Words(RequestLineText(l, short)) == if short then [l.method_, l.uri] else [l.method_, l.uri, l.version]
  {
    hide Words, Token;
    NoWords();
    var tail := if short then "" else " " + l.version + "";
    if !short {
      WordsAfterSpace(l.version, "");
    }
    WordsAfterSpace(l.uri, tail);
    WordsFirst(l.method_, " " + l.uri + tail);
    assert RequestLineText(l, short) == l.method_ + (" " + l.uri + tail);
  }

  lemma RequestLineOneLine(l: RequestLine, short: bool)
    requires TokenLine(l, short)
    ensures '\n' !in RequestLineText(l, short)
    ensures RStripEol(RequestLineText(l, short) + "\r\n") == RequestLineText(l, short)
    ensures IsText(RequestLineText(l, short))
  {
    hide RStripLen;
    var text, last := RequestLineText(l, short), if short then l.uri else l.version;
    assert last[|last| - 1] == text[|text| - 1] && text[0] == l.method_[0];
    RStripPadded(IsEol, text, "\r\n");
  }

  lemma NoWords()
    ensures Words("") == []
  {
  }

  lemma {:induction false} EmptyLinesSkipped(n: nat, s: string)
    requires !IsEmptyLine(Line(s))
    ensures SkipEmptyLines(EmptyLines(n, s)) == s
  {
    hide SkipEmptyLines, IsEmptyLine;
    if n == 0 {
      NothingSkipped(s);
    } else {
      EmptyLinesSkipped(n - 1, s);
      SkipsOne(EmptyLines(n - 1, s));
    }
  }

  lemma NothingSkipped(s: string)
    requires !IsEmptyLine(Line(s))
    ensures SkipEmptyLines(s) == s
  {
  }

  lemma EmptyLinesStart(n: nat, s: string)
    requires EndsLf(Line(s))
    ensures EmptyLines(n, s) != "" && EndsLf(Line(EmptyLines(n, s)))
  {
    if n > 0 {
      FirstLine("", EmptyLines(n - 1, s));
      assert "" + "\r\n" + EmptyLines(n - 1, s) == EmptyLines(n, s);
    }
  }

  lemma RequestLineRead(n: nat, l: RequestLine, short: bool, t: string)
    requires ValidRequestLine(l, short)
    ensures ParseRequestLine(EmptyLines(n, RequestLineText(l, short) + "\r\n" + t)) == Ok(l, t)
  {
    hide Words, RStripEol, RequestLineText, Token, EmptyLines, SkipEmptyLines;
    var line := RequestLineText(l, short);
    RequestLineWords(l, short);
    RequestLineOneLine(l, short);
    FirstLine(line, t);
    assert line + "\r\n" != "\r\n";
    EmptyLinesSkipped(n, line + "\r\n" + t);
    EmptyLinesStart(n, line + "\r\n" + t);
  }

  /**
   Every well-formed request is parsed to what it means and exactly its own
   text is consumed, whatever follows it in the buffer.
   */
  lemma RequestRead(w: WireRequest, t: string)
    requires ValidRequest(w)
    ensures ParseRequest(RequestWire(w, "") + t) == Ok(RequestMeaning(w), t)
  {
    hide ParseRequestLine, ParseContent, ValidRequestLine, ValidContent, ContentWire;
    RequestAppend(w, t);
    RequestLineRead(w.emptyLines, w.line, w.short, ContentWire(w.fields, w.body, t));
    ContentRead(RequestFraming, w.fields, w.body, t);
  }

  predicate CutSafeRequest(w: WireRequest) {
    w.emptyLines == 0 && CutSafeBody(HeadersOf(w.fields), w.body)
  }

  /** A cut-safe request is incomplete wherever it is cut. */
  lemma RequestCut(w: WireRequest, p: string, u: string)
    requires ValidRequest(w) && CutSafeRequest(w)
    requires p + u == RequestWire(w, "") && p != "" && u != ""
    ensures ParseRequest(p) == Incomplete
  {
    hide ParseRequest, ParseRequestLine, ContentWire, RequestLineText, Words, RStripEol, NeverShort;
    var line := RequestLineText(w.line, w.short);
    var rest := ContentWire(w.fields, w.body, "");
    RequestLineOneLine(w.line, w.short);
    FirstLine(line, rest);
    if |p| < |line| + 2 {
      LineCut(p, u);
      CutLineIncomplete(p);
    } else {
      var q := CutAfterLine(line, rest, p, u);
      RequestLineRead(0, w.line, w.short, q);
      SafeNeverShort(RequestFraming(HeadersOf(w.fields)), HeadersOf(w.fields), w.body);
      ContentCut(RequestFraming, w.fields, w.body, q, u);
      LineThenIncomplete(p, q, w.line);
    }
  }

  /** A cut behind the first line goes through what follows it. */
  lemma CutAfterLine(line: string, rest: string, p: string, u: string) returns (q: string)
    requires p + u == line + "\r\n" + rest && |p| >= |line| + 2
    ensures p == line + "\r\n" + q && q + u == rest
  {
    q := p[|line| + 2..];
    assert p == (p + u)[..|p|];
  }

  lemma CutLineIncomplete(p: string)
    requires p != "" && Line(p) == p && !EndsLf(p)
    ensures ParseRequest(p) == Incomplete
  {
  }

  lemma EmptyLineRefused(w: WireRequest)
    requires ValidRequest(w) && w.emptyLines > 0
    ensures ParseRequest("\r\n") == ParseErr && "\r\n" < RequestWire(w, "")
  {
    hide ContentWire, RequestLineText, ParseRequest, ValidRequest;
    EmptyLineAlone();
    EmptyLinesLonger(w.emptyLines - 1, RequestLineText(w.line, w.short) + "\r\n" + ContentWire(w.fields, w.body, ""));
  }

  lemma EmptyLineAlone()
    ensures ParseRequest("\r\n") == ParseErr
  {
    assert Line("\r\n") == "\r\n" && After("\r\n") == "" by { FirstLine("", ""); assert "" + "\r\n" + "" == "\r\n"; }
    assert SkipEmptyLines("\r\n") == "";
    assert Words(RStripEol(Line(""))) == [];
  }

  lemma {:induction false} EmptyLinesLonger(n: nat, t: string)
    ensures |EmptyLines(n, t)| >= |t|
  {
    if n == 0 {
    } else {
      EmptyLinesLonger(n - 1, t);
    }
  }

  /**
   Exactly when every part of a well-formed request is reported incomplete: no
   empty line before it, no continuation line in its trailer section, and no
   `Expect: 100-continue` on a request whose length is given and not zero.
   */
  lemma RequestCutIff(w: WireRequest)
    requires ValidRequest(w)
    ensures (forall k | 0 < k < |RequestWire(w, "")| :: ParseRequest(RequestWire(w, "")[..k]) == Incomplete)
            <==> CutSafeRequest(w)
  {
    hide ParseRequest, ValidRequest, RequestWire, CutSafeBody;
    var s := RequestWire(w, "");
    if CutSafeRequest(w) {
      forall k | 0 < k < |s| ensures ParseRequest(s[..k]) == Incomplete {
        assert s[..k] + s[k..] == s;
        RequestCut(w, s[..k], s[k..]);
      }
    } else if w.emptyLines > 0 {
      EmptyLineRefused(w);
      assert s[..2] == "\r\n";
    } else {
      var p := UnsafeRequestCut(w);
      assert s[..|p|] == p;
    }
  }

  /** With empty lines before it or not, a part of the request is accepted. */
  lemma UnsafeRequestCut(w: WireRequest) returns (p: string)
    requires ValidRequest(w) && !CutSafeBody(HeadersOf(w.fields), w.body)
    ensures p != "" && p < RequestWire(w, "") && ParseRequest(p).Ok?
  {
    hide ParseRequestLine, ParseContent, ContentWire, RequestLineText, CutSafeBody, EmptyLines, ValidRequestLine;
    var q := UnsafeCut(RequestFraming, w.fields, w.body);
    RequestLineRead(w.emptyLines, w.line, w.short, q);
    var rest := ContentWire(w.fields, w.body, "");
    var line := RequestLineText(w.line, w.short) + "\r\n";
    p := EmptyLines(w.emptyLines, line + q);
    assert rest == q + rest[|q|..];
    assert line + rest == line + q + rest[|q|..];
    EmptyLinesAppend(w.emptyLines, line + q, rest[|q|..]);
    EmptyLinesLonger(w.emptyLines, line + q);
  }

  // A request with empty lines before it is not incomplete everywhere, but no part of it is accepted.

  /** A text of which the first line that is not empty is not complete. */
  lemma CutLineRefused(s: string)
    requires '\n' !in SkipEmptyLines(s)
    ensures !ParseRequest(s).Ok? && (s != "" ==> !ParseRequest(s).Crash?)
  {
    hide Words, RStripEol, SplitField;
    var t := SkipEmptyLines(s);
    assert Line(t) == t && After(t) == "";
    assert ParseFields("", false, false) == Incomplete;
  }

  lemma {:induction false} EmptyLinesCut(n: nat, t: string, p: string, u: string) returns (q: string)
    requires p + u == EmptyLines(n, t) && IsText(t)
    ensures q <= t
    ensures p == EmptyLines(n, q) || (q == "" && SkipEmptyLines(p) == "")
  {
    if n == 0 {
      q := p;
    } else if |p| < 2 {
      q := "";
      assert p == "" || p == "\r" by { assert p == (p + u)[..|p|] && (p + u)[..2] == "\r\n"; }
      SkipCr();
    } else {
      assert p[..2] == (p + u)[..2] == "\r\n";
      assert p[2..] + u == (p + u)[2..] == EmptyLines(n - 1, t);
      q := EmptyLinesCut(n - 1, t, p[2..], u);
      assert p == "\r\n" + p[2..];
      SkipsOne(p[2..]);
    }
  }

  /** It does not start with an empty line. */
  predicate IsText(t: string) {
    t != "" && !IsEol(t[0])
  }

  lemma SkipCr()
    ensures SkipEmptyLines("\r") == "" && SkipEmptyLines("") == ""
  {
    assert Line("\r") == "\r" && After("\r") == "";
  }

  lemma {:induction false} SkipsToText(n: nat, q: string)
    requires q == "" || IsText(q)
    ensures SkipEmptyLines(EmptyLines(n, q)) == q
  {
    hide SkipEmptyLines;
    if n == 0 {
      StaysAtText(q);
    } else {
      SkipsToText(n - 1, q);
      SkipsOne(EmptyLines(n - 1, q));
    }
  }

  lemma StaysAtText(q: string)
    requires q == "" || IsText(q)
    ensures SkipEmptyLines(q) == q
  {
    if q != "" {
      assert Line(q)[0] == q[0];
    }
  }

  lemma SkipsOne(t: string)
    ensures SkipEmptyLines("\r\n" + t) == SkipEmptyLines(t)
  {
    FirstLine("", t);
    assert "" + "\r\n" + t == "\r\n" + t;
  }

  /** A request with a body of which no part is taken for the whole. */
  ghost predicate NeverShortRequest(w: WireRequest) {
    && ValidRequestLine(w.line, w.short) && ValidFields(w.fields, false)
    && NeverShort(RequestFraming(HeadersOf(w.fields)), HeadersOf(w.fields), w.body)
  }

  lemma SafeNeverShortRequest(w: WireRequest)
    requires ValidRequest(w) && CutSafeBody(HeadersOf(w.fields), w.body)
    ensures NeverShortRequest(w)
  {
    hide NeverShort, ValidRequestLine, ValidFields;
    SafeNeverShort(RequestFraming(HeadersOf(w.fields)), HeadersOf(w.fields), w.body);
  }

  /** No part of such a request is accepted, whatever empty lines there are before it. */
  lemma RequestPartRefused(w: WireRequest, p: string, u: string)
    requires NeverShortRequest(w)
    requires p + u == RequestWire(w, "") && p != "" && u != ""
    ensures ParseRequest(p) == Incomplete || ParseRequest(p) == ParseErr
  {
    hide ParseRequest, ContentWire, RequestLineText, NeverShort, EmptyLines, SkipEmptyLines;
    var line := RequestLineText(w.line, w.short);
    var rest := ContentWire(w.fields, w.body, "");
    var t := line + "\r\n" + rest;
    RequestLineOneLine(w.line, w.short);
    var q := EmptyLinesCut(w.emptyLines, t, p, u);
    if |q| < |line| + 2 {
      assert q == t[..|q|];
      assert '\n' !in q;
      if p == EmptyLines(w.emptyLines, q) {
        SkipsToText(w.emptyLines, q);
      }
      CutLineRefused(p);
    } else {
      var r := q[|line| + 2..];
      CutBehindLine(line, rest, q);
      EmptyLinesAppend(w.emptyLines, q, t[|q|..]);
      RequestLineRead(w.emptyLines, w.line, w.short, r);
      ContentCut(RequestFraming, w.fields, w.body, r, t[|q|..]);
      LineThenIncomplete(p, r, w.line);
    }
  }

  lemma CutBehindLine(line: string, rest: string, q: string)
    requires q <= line + "\r\n" + rest && |q| >= |line| + 2
    ensures var t, r := line + "\r\n" + rest, q[|line| + 2..];
            q == line + "\r\n" + r && t == q + t[|q|..] && r + t[|q|..] == rest
  {
    var t, r := line + "\r\n" + rest, q[|line| + 2..];
    var n := |line| + 2;
    assert t[..n] == line + "\r\n" && t[n..] == rest;
    assert q == t[..|q|] && q[..n] == t[..n] && r == t[n..|q|];
    assert q == q[..n] + r;
    assert t[n..] == t[n..|q|] + t[|q|..];
  }

  lemma LineThenIncomplete(p: string, r: string, l: RequestLine)
    requires ParseRequestLine(p) == Ok(l, r) && ParseContent(RequestFraming, r) == Incomplete
    ensures ParseRequest(p) == Incomplete
  {
    hide ParseRequestLine, ParseContent;
  }

  /** A request whose chunked body is as section 4.1 of RFC 7230 has it, with any payloads. */
  predicate LegalChunked(w: WireRequest) {
    && ValidRequestLine(w.line, w.short) && ValidFields(w.fields, false)
    && w.body.Chunks? && RequestFraming(HeadersOf(w.fields)) == Chunked
    && SizedChunks(w.body.chunks) && ValidLast(w.body.last) && ValidFields(w.body.trailer, false)
  }

  /**
   A legal chunked request, whatever follows it, is parsed to what it means if
   all its payloads are readable, and otherwise never: no text that follows
   makes it complete.
   */
  lemma ChunkedRequestReadIff(w: WireRequest, t: string)
    requires LegalChunked(w)
    ensures ParseRequest(RequestWire(w, "") + t)
         == if AllReadable(w.body.chunks) then Ok(RequestMeaning(w), t) else Incomplete
  {
    hide ParseRequestLine, ParseFields, ReadChunkedBody, AllReadable, BodyWire, SectionWire, ValidRequestLine;
    RequestAppend(w, t);
    RequestLineRead(w.emptyLines, w.line, w.short, ContentWire(w.fields, w.body, t));
    SectionRead(w.fields, BodyWire(w.body, t), false, false);
    ChunkedBodyReadIff(w.body, t);
  }

  /** There are such requests: one with a chunk that is just a line feed. */
  lemma UnreadableExists()
    ensures var fields := [Field("Transfer-Encoding", " ", "chunked", "", [])];
            var body := Chunks([Chunk("1", "", "\n")], Chunk("0", "", ""), []);
            var w := WireRequest(0, RequestLine("POST", "/", "HTTP/1.1"), false, fields, body);
            LegalChunked(w) && !AllReadable(w.body.chunks)
  {
    hide RequestFraming, ValidRequestLine, ValidField, HeadersOf, ValidSize, FieldName, OneLine;
    var chunks := [Chunk("1", "", "\n")];
    CodingName();
    PlainField("Transfer-Encoding", "chunked");
    CodingChunked();
    PostLine();
    SmallSizes();
    assert !ReadablePayload(chunks[0].data);
  }

  lemma PlainField(name: string, value: string)
    requires FieldName(name) && OneLine(value)
    ensures var f := Field(name, " ", value, "", []);
            ValidField(f, false) && HeadersOf([f]) == [Header(name, value)]
  {
    hide FieldName, OneLine;
    var fs := [Field(name, " ", value, "", [])];
    assert fs[1..] == [] && HeadersOf([]) == [];
  }

  lemma CodingName()
    ensures FieldName("Transfer-Encoding") && OneLine("chunked")
  {
  }

  lemma PostLine()
    ensures ValidRequestLine(RequestLine("POST", "/", "HTTP/1.1"), false)
  {
  }

  lemma SmallSizes()
    ensures ValidSize("1", "", 1) && ValidSize("0", "", 0)
  {
    assert "1"[..0] == "" && "0"[..0] == "";
    assert NumberOf("", 16) == 0;
    assert NumberOf("1", 16) == NumberOf("", 16) * 16 + 1 && NumberOf("0", 16) == NumberOf("", 16) * 16;
  }

  lemma CodingChunked()
    ensures RequestFraming([Header("Transfer-Encoding", "chunked")]) == Chunked
  {
    hide Lower, Strip, AfterLast;
    var hs := [Header("Transfer-Encoding", "chunked")];
    assert Get(hs, "Transfer-Encoding") == Some("chunked");
    ChunkedWord();
  }

  lemma ChunkedWord()
    ensures Lower(Strip(AfterLast("chunked", ','))) == "chunked"
  {
    hide Lower, AfterLast, Strip;
    OneCoding("chunked");
    LowerChunked();
  }

  lemma OneCoding(s: string)
    requires ',' !in s && Trimmed(s)
    ensures Strip(AfterLast(s, ',')) == s
  {
    hide StripBy;
    assert IndexOf(s, ',') == |s|;
    StripTrimmed(IsSpace, s);
  }

  lemma LowerChunked()
    ensures Lower("chunked") == "chunked"
  {
  }

  /** Nor is any part of it, or of it and what follows, accepted. */
  lemma UnreadableRefused(w: WireRequest, t: string, p: string)
    requires LegalChunked(w) && !AllReadable(w.body.chunks) && p != "" && p <= RequestWire(w, "") + t
    ensures ParseRequest(p) == Incomplete || ParseRequest(p) == ParseErr
  {
    hide ParseRequest, RequestWire, AllReadable, SizedChunks, ValidRequestLine;
    var text := RequestWire(w, "");
    assert p == (text + t)[..|p|];
    if |p| < |text| {
      assert p + text[|p|..] == text;
      UnreadableNeverShort(HeadersOf(w.fields), w.body);
      RequestPartRefused(w, p, text[|p|..]);
    } else {
      assert p == text + t[..|p| - |text|];
      ChunkedRequestReadIff(w, t[..|p| - |text|]);
    }
  }

  // -------------------------------------------------------------------- responses

  lemma {:induction false} ReasonWords(words: seq<string>)
    requires forall i | 0 <= i < |words| :: Token(words[i])
    ensures Words(ReasonText(words)) == words
    ensures ReasonText(words) == "" || IsSpace(ReasonText(words)[0])
    ensures '\n' !in ReasonText(words)
    ensures ReasonText(words) == "" || !IsSpace(ReasonText(words)[|ReasonText(words)| - 1])
  {
    if words == [] {
    } else {
      hide Words;
      ReasonWords(words[1..]);
      WordsAfterSpace(words[0], ReasonText(words[1..]));
      assert [words[0]] + words[1..] == words;
    }
  }

  lemma StatusLineWords(w: WireResponse)
    requires Token(w.version) && Token(w.status) && (forall i | 0 <= i < |w.reason| :: Token(w.reason[i]))
    ensures Words(StatusLineText(w)) == [w.version, w.status] + w.reason
    ensures '\n' !in StatusLineText(w)
    ensures RStripEol(StatusLineText(w) + "\r\n") == StatusLineText(w)
  {
    hide Words, ReasonText;
    ReasonWords(w.reason);
    WordsAfterSpace(w.status, ReasonText(w.reason));
    WordsFirst(w.version, " " + w.status + ReasonText(w.reason));
    RStripPadded(IsEol, StatusLineText(w), "\r\n");
  }

  lemma StatusLineRead(w: WireResponse, t: string)
    requires Token(w.version) && Token(w.status) && (forall i | 0 <= i < |w.reason| :: Token(w.reason[i]))
    requires StatusCode(w.status).Some?
    ensures ParseStatusLine(StatusLineText(w) + "\r\n" + t) == Ok(ResponseMeaning(w).line, t)
  {
    hide Words, RStripEol, StatusCode, StatusLineText;
    StatusLineWords(w);
    FirstLine(StatusLineText(w), t);
    assert ([w.version, w.status] + w.reason)[2..] == w.reason;
  }

  /** The same for responses, under the method of the request they answer. */
  lemma ResponseRead(method_: string, w: WireResponse, t: string)
    requires ValidResponse(method_, w)
    ensures ParseResponse(method_, ResponseWire(w, "") + t) == Ok(ResponseMeaning(w), t)
  {
    hide ParseStatusLine, ParseContent, ValidContent, ContentWire, StatusCode, StatusLineText;
    ResponseAppend(w, t);
    StatusLineRead(w, ContentWire(w.fields, w.body, t));
    ContentRead(FramingUnder(method_, StatusCode(w.status).value), w.fields, w.body, t);
  }

  predicate LegalChunkedResponse(method_: string, w: WireResponse) {
    && Token(w.version) && Token(w.status) && StatusCode(w.status).Some?
    && (forall i | 0 <= i < |w.reason| :: Token(w.reason[i])) && ValidFields(w.fields, false)
    && w.body.Chunks? && FramingUnder(method_, StatusCode(w.status).value)(HeadersOf(w.fields)) == Chunked
    && SizedChunks(w.body.chunks) && ValidLast(w.body.last) && ValidFields(w.body.trailer, false)
  }

  /** A legal chunked response is likewise parsed to what it means, or never complete. */
  lemma ChunkedResponseReadIff(method_: string, w: WireResponse, t: string)
    requires LegalChunkedResponse(method_, w)
    ensures ParseResponse(method_, ResponseWire(w, "") + t)
         == if AllReadable(w.body.chunks) then Ok(ResponseMeaning(w), t) else Incomplete
  {
    hide ParseStatusLine, ParseFields, ReadChunkedBody, AllReadable, BodyWire, SectionWire, StatusLineText, StatusCode;
    ResponseAppend(w, t);
    StatusLineRead(w, ContentWire(w.fields, w.body, t));
    SectionRead(w.fields, BodyWire(w.body, t), false, false);
    ChunkedBodyReadIff(w.body, t);
  }

  lemma ResponseCut(method_: string, w: WireResponse, p: string, u: string)
    requires ValidResponse(method_, w) && CutSafeBody(HeadersOf(w.fields), w.body)
    requires p + u == ResponseWire(w, "") && p != "" && u != ""
    ensures ParseResponse(method_, p) == Incomplete
  {
    hide ParseContent, ContentWire, StatusLineText, Words, RStripEol, StatusCode, NeverShort;
    var line := StatusLineText(w);
    var rest := ContentWire(w.fields, w.body, "");
    StatusLineWords(w);
    FirstLine(line, rest);
    if |p| < |line| + 2 {
      LineCut(p, u);
    } else {
      hide ParseStatusLine;
      var q := CutAfterLine(line, rest, p, u);
      StatusLineRead(w, q);
      var framingOf, hs := FramingUnder(method_, StatusCode(w.status).value), HeadersOf(w.fields);
      SafeNeverShort(framingOf(hs), hs, w.body);
      ContentCut(framingOf, w.fields, w.body, q, u);
    }
  }

  lemma UnsafeResponseCut(method_: string, w: WireResponse) returns (p: string)
    requires ValidResponse(method_, w) && !CutSafeBody(HeadersOf(w.fields), w.body)
    ensures p != "" && p < ResponseWire(w, "") && ParseResponse(method_, p).Ok?
  {
    hide ParseStatusLine, ParseContent, ContentWire, StatusLineText, CutSafeBody, StatusCode;
    var q := UnsafeCut(FramingUnder(method_, StatusCode(w.status).value), w.fields, w.body);
    StatusLineRead(w, q);
    var rest := ContentWire(w.fields, w.body, "");
    var line := StatusLineText(w) + "\r\n";
    p := line + q;
    assert rest == q + rest[|q|..];
    assert line + rest == p + rest[|q|..];
  }

  /** Exactly when every part of a well-formed response is reported incomplete. */
  lemma ResponseCutIff(method_: string, w: WireResponse)
    requires ValidResponse(method_, w)
    ensures (forall k | 0 < k < |ResponseWire(w, "")| :: ParseResponse(method_, ResponseWire(w, "")[..k]) == Incomplete)
            <==> CutSafeBody(HeadersOf(w.fields), w.body)
  {
    hide ParseResponse, ValidResponse, ResponseWire, CutSafeBody;
    var s := ResponseWire(w, "");
    if CutSafeBody(HeadersOf(w.fields), w.body) {
      forall k | 0 < k < |s| ensures ParseResponse(method_, s[..k]) == Incomplete {
        assert s[..k] + s[k..] == s;
        ResponseCut(method_, w, s[..k], s[k..]);
      }
    } else {
      var p := UnsafeResponseCut(method_, w);
      assert s[..|p|] == p;
    }
  }
}
